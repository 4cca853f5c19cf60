/** The build action of the Karma plugin: the four coverage ratios of one
    build, the health report computed from them, how they are loaded from
    the report files, and the search for the previous build's action. */
module KarmaBuildAction {
  import opened Wrappers
  import opened Builds
  import opened Thresholds
  import opened RatioParser
  import opened ReportScan

  datatype Metric = Lines | Statements | Functions | Branches

  /** One entry of the health report's description: a metric below its
      maximum, with its ratio and percentage, or the "perfect" note. */
  datatype Message = Deficiency(metric: Metric, ratio: Ratio, percent: int) | Perfect

  datatype HealthReport = HealthReport(score: int, messages: seq<Message>)

  /** One of the four blocks of getBuildHealth: a metric, its ratio (None
      for null) and its clamped thresholds. */
  datatype Check = Check(metric: Metric, ratio: Option<Ratio>, range: Range)

  /** A block runs only for a non-null ratio and a positive maximum. */
  predicate Applies(c: Check) {
    c.ratio.Some? && c.range.max > 0
  }

  function Min(a: int, b: int): int {
    if a < b then a else b
  }

  /** updateHealthScore. Its callers pass clamped thresholds, so the float
      arithmetic of the source is exact integer division here: in the last
      case 0 < value - min < max - min <= 100. */
  function UpdateHealthScore(score: int, min: int, value: int, max: int): (r: int)
    requires 0 <= min <= max <= 100
    ensures value >= max ==> r == score
    ensures value < max && value <= min ==> r == 0
    ensures min < value < max ==> r == Min(score, (100 * (value - min)) / (max - min))
    ensures 0 <= score ==> 0 <= r <= score
    ensures value < max ==> r < 100
  {
    if value >= max then score
    else if value <= min then 0
    else
      var scaled := (100 * (value - min)) / (max - min);
      ScaledBelowHundred(value - min, max - min);
      if scaled < score then scaled else score
  }

  /** The scaled score of a value strictly between the thresholds. */
  lemma ScaledBelowHundred(a: int, b: int)
    requires 0 < a < b
    ensures 0 <= (100 * a) / b < 100
  {
    var q := (100 * a) / b;
    assert 100 * a == q * b + (100 * a) % b;
  }

  /** What one block does to the score. */
  function Step(score: int, c: Check, percentage: Ratio -> int): int
    requires c.range.Valid()
  {
    if Applies(c) then UpdateHealthScore(score, c.range.min, percentage(c.ratio.value), c.range.max)
    else score
  }

  predicate AllValid(checks: seq<Check>) {
    forall i :: 0 <= i < |checks| ==> checks[i].range.Valid()
  }

  /** The score after the blocks `checks`, in order, starting from 100. */
  function Score(checks: seq<Check>, percentage: Ratio -> int): (r: int)
    requires AllValid(checks)
    ensures 0 <= r <= 100
    decreases |checks|
  {
    if checks == [] then 100
    else Step(Score(checks[..|checks| - 1], percentage), checks[|checks| - 1], percentage)
  }

  /** The deficiency messages of the blocks `checks`, in order. */
  function Deficiencies(checks: seq<Check>, percentage: Ratio -> int): (r: seq<Message>)
    ensures |r| <= |checks|
    ensures forall i :: 0 <= i < |r| ==> r[i].Deficiency?
    decreases |checks|
  {
    if checks == [] then []
    else
      var c := checks[|checks| - 1];
      var earlier := Deficiencies(checks[..|checks| - 1], percentage);
      if Applies(c) && percentage(c.ratio.value) < c.range.max
      then earlier + [Deficiency(c.metric, c.ratio.value, percentage(c.ratio.value))]
      else earlier
  }

  /** What one more block adds to the score and the messages. */
  function Contribution(c: Check, percentage: Ratio -> int): seq<Message> {
    if Applies(c) && percentage(c.ratio.value) < c.range.max
    then [Deficiency(c.metric, c.ratio.value, percentage(c.ratio.value))]
    else []
  }

  lemma Extend(checks: seq<Check>, k: nat, percentage: Ratio -> int)
    requires AllValid(checks) && k < |checks|
    ensures AllValid(checks[..k]) && AllValid(checks[..k + 1])
    ensures Score(checks[..k + 1], percentage) == Step(Score(checks[..k], percentage), checks[k], percentage)
    ensures Deficiencies(checks[..k + 1], percentage)
            == Deficiencies(checks[..k], percentage) + Contribution(checks[k], percentage)
  {
    assert checks[..k + 1][..k] == checks[..k];
  }

  /** The report of getBuildHealth once the thresholds are clamped. */
  function Health(checks: seq<Check>, percentage: Ratio -> int): HealthReport
    requires AllValid(checks)
  {
    var score := Score(checks, percentage);
    HealthReport(score, Deficiencies(checks, percentage) + (if score == 100 then [Perfect] else []))
  }

  /** The value one block would cap the score at, on its own. */
  function Candidate(c: Check, percentage: Ratio -> int): (r: int)
    requires c.range.Valid()
    ensures 0 <= r <= 100
  {
    if !Applies(c) then 100 else UpdateHealthScore(100, c.range.min, percentage(c.ratio.value), c.range.max)
  }

  /** The worst (least) candidate, or 100 when there are no blocks. */
  function Worst(checks: seq<Check>, percentage: Ratio -> int): (r: int)
    requires AllValid(checks)
    ensures 0 <= r <= 100
    ensures forall i :: 0 <= i < |checks| ==> r <= Candidate(checks[i], percentage)
    ensures r == 100 || exists i :: 0 <= i < |checks| && r == Candidate(checks[i], percentage)
    decreases |checks|
  {
    if checks == [] then 100
    else
      var rest := Worst(checks[..|checks| - 1], percentage);
      var c := Candidate(checks[|checks| - 1], percentage);
      assert forall i :: 0 <= i < |checks| - 1 ==> checks[..|checks| - 1][i] == checks[i];
      Min(rest, c)
  }

  lemma StepIsMinWithCandidate(score: int, c: Check, percentage: Ratio -> int)
    requires c.range.Valid() && 0 <= score <= 100
    ensures Step(score, c, percentage) == Min(score, Candidate(c, percentage))
  {
  }

  /** The health score is the worst metric's score: a minimum, not an
      average. */
  lemma {:induction false} ScoreIsWorst(checks: seq<Check>, percentage: Ratio -> int)
    requires AllValid(checks)
    ensures Score(checks, percentage) == Worst(checks, percentage)
    decreases |checks|
  {
    if checks != [] {
      var init := checks[..|checks| - 1];
      assert AllValid(init) by {
        assert forall i :: 0 <= i < |init| ==> init[i] == checks[i];
      }
      ScoreIsWorst(init, percentage);
      StepIsMinWithCandidate(Score(init, percentage), checks[|checks| - 1], percentage);
    }
  }

  /** The score never rises from one block to the next. */
  lemma ScoreNonIncreasing(checks: seq<Check>, percentage: Ratio -> int, i: nat)
    requires AllValid(checks) && i < |checks|
    ensures AllValid(checks[..i]) && AllValid(checks[..i + 1])
    ensures Score(checks[..i + 1], percentage) <= Score(checks[..i], percentage)
  {
    assert checks[..i + 1][..i] == checks[..i];
  }

  /** A metric at or below its minimum (and below its maximum) forces the
      score to 0, whatever the other metrics say. */
  lemma AtOrBelowMinForcesZero(checks: seq<Check>, percentage: Ratio -> int, i: nat)
    requires AllValid(checks) && i < |checks| && Applies(checks[i])
    requires percentage(checks[i].ratio.value) <= checks[i].range.min
    requires percentage(checks[i].ratio.value) < checks[i].range.max
    ensures Score(checks, percentage) == 0
  {
    ScoreIsWorst(checks, percentage);
  }

  /** A block whose ratio is null or whose maximum is 0 changes neither
      the score nor the messages. */
  lemma {:induction false} SkippedCheckIsInert(before: seq<Check>, c: Check, after: seq<Check>, percentage: Ratio -> int)
    requires AllValid(before + after) && c.range.Valid() && !Applies(c)
    ensures AllValid(before + [c] + after)
    ensures Score(before + [c] + after, percentage) == Score(before + after, percentage)
    ensures Deficiencies(before + [c] + after, percentage) == Deficiencies(before + after, percentage)
    decreases |after|
  {
    var with := before + [c] + after;
    var without := before + after;
    AllValidInsert(before, c, after);
    if after == [] {
      assert with[..|with| - 1] == before && without == before;
    } else {
      var init := after[..|after| - 1];
      InsertLast(before, c, after);
      SkippedCheckIsInert(before, c, init, percentage);
    }
  }

  lemma AllValidInsert(before: seq<Check>, c: Check, after: seq<Check>)
    requires AllValid(before + after) && c.range.Valid()
    ensures AllValid(before + [c] + after)
  {
    var with := before + [c] + after;
    var without := before + after;
    forall i | 0 <= i < |with| ensures with[i].range.Valid() {
      if i < |before| { assert with[i] == without[i]; }
      else if i > |before| { assert with[i] == without[i - 1]; }
    }
  }

  lemma InsertLast(before: seq<Check>, c: Check, after: seq<Check>)
    requires AllValid(before + after) && after != []
    ensures (before + [c] + after)[..|before| + |after|] == before + [c] + after[..|after| - 1]
    ensures (before + after)[..|before| + |after| - 1] == before + after[..|after| - 1]
    ensures (before + [c] + after)[|before| + |after|] == (before + after)[|before| + |after| - 1]
    ensures AllValid(before + after[..|after| - 1])
  {
    var without := before + after;
    var init := after[..|after| - 1];
    assert forall i :: 0 <= i < |before + init| ==> (before + init)[i] == without[i];
  }

  /** A deficiency is reported exactly for the applying metrics below
      their maximum; the score is 100 exactly when there is none. */
  lemma {:induction false} PerfectIffNoDeficiency(checks: seq<Check>, percentage: Ratio -> int)
    requires AllValid(checks)
    ensures Score(checks, percentage) == 100 <==> Deficiencies(checks, percentage) == []
    ensures Deficiencies(checks, percentage) == [] <==>
            forall i :: 0 <= i < |checks| && Applies(checks[i]) ==> percentage(checks[i].ratio.value) >= checks[i].range.max
    decreases |checks|
  {
    ScoreIsWorst(checks, percentage);
    if checks != [] {
      var init := checks[..|checks| - 1];
      assert AllValid(init) by {
        assert forall i :: 0 <= i < |init| ==> init[i] == checks[i];
      }
      PerfectIffNoDeficiency(init, percentage);
      assert forall i :: 0 <= i < |init| ==> init[i] == checks[i];
    }
  }

  /** KarmaBuildAction: the four ratios of a build and the thresholds that
      applied when it was built (null when health reporting is off). */
  class BuildAction {
    const lineCoverage: Option<Ratio>
    const statementCoverage: Option<Ratio>
    const functionCoverage: Option<Ratio>
    const branchCoverage: Option<Ratio>
    const thresholds: HealthReportThresholds?

    constructor (lineCoverage: Option<Ratio>, statementCoverage: Option<Ratio>,
                 functionCoverage: Option<Ratio>, branchCoverage: Option<Ratio>,
                 thresholds: HealthReportThresholds?)
      ensures this.lineCoverage == lineCoverage && this.statementCoverage == statementCoverage
      ensures this.functionCoverage == functionCoverage && this.branchCoverage == branchCoverage
      ensures this.thresholds == thresholds
    {
      this.lineCoverage := lineCoverage;
      this.statementCoverage := statementCoverage;
      this.functionCoverage := functionCoverage;
      this.branchCoverage := branchCoverage;
      this.thresholds := thresholds;
    }

    /** The four ratios, in slot order. */
    function Ratios(): seq<Option<Ratio>> {
      [lineCoverage, statementCoverage, functionCoverage, branchCoverage]
    }

    /** The four blocks of getBuildHealth, in their order, under limits l. */
    function Checks(l: Limits): seq<Check> {
      [Check(Lines, lineCoverage, l.line), Check(Statements, statementCoverage, l.statement),
       Check(Functions, functionCoverage, l.functions), Check(Branches, branchCoverage, l.branch)]
    }

    /** getBuildHealth: no report without thresholds; otherwise the
        thresholds are clamped in place and the report is the worst-metric
        score with the deficiency messages in metric order. */
    method GetBuildHealth(percentage: Ratio -> int) returns (report: Option<HealthReport>)
      modifies thresholds
      ensures thresholds == null ==> report.None?
      ensures thresholds != null ==> thresholds.Current() == old(thresholds.Current()).Clamped()
      ensures thresholds != null ==> report == Some(Health(Checks(thresholds.Current()), percentage))
    {
      if thresholds == null {
        return None;
      }
      thresholds.EnsureValid();
      var l := thresholds.Current();
      var score := 100;
      var reports: seq<Message> := [];
      score, reports := Assess(Check(Lines, lineCoverage, l.line), score, reports, percentage);
      score, reports := Assess(Check(Statements, statementCoverage, l.statement), score, reports, percentage);
      score, reports := Assess(Check(Functions, functionCoverage, l.functions), score, reports, percentage);
      score, reports := Assess(Check(Branches, branchCoverage, l.branch), score, reports, percentage);
      FourChecks(Checks(l), percentage);
      assert reports + [] == reports;
      if score == 100 {
        reports := reports + [Perfect];
      }
      report := Some(HealthReport(score, reports));
    }
  }

  /** One block of getBuildHealth: for a non-null ratio and a positive
      maximum, a message when the percentage is below the maximum, and the
      score updated. */
  method Assess(c: Check, score: int, reports: seq<Message>, percentage: Ratio -> int)
    returns (score': int, reports': seq<Message>)
    requires c.range.Valid()
    ensures score' == Step(score, c, percentage)
    ensures reports' == reports + Contribution(c, percentage)
  {
    score', reports' := score, reports;
    if c.ratio.Some? && c.range.max > 0 {
      var percent := percentage(c.ratio.value);
      if percent < c.range.max {
        reports' := reports' + [Deficiency(c.metric, c.ratio.value, percent)];
      }
      score' := UpdateHealthScore(score', c.range.min, percent, c.range.max);
    } else {
      assert reports + [] == reports;
    }
  }

  /** Score and messages of the four blocks, unrolled. */
  lemma FourChecks(checks: seq<Check>, percentage: Ratio -> int)
    requires |checks| == 4 && AllValid(checks)
    ensures Score(checks, percentage)
            == Step(Step(Step(Step(100, checks[0], percentage), checks[1], percentage), checks[2], percentage), checks[3], percentage)
    ensures Deficiencies(checks, percentage)
            == [] + Contribution(checks[0], percentage) + Contribution(checks[1], percentage)
               + Contribution(checks[2], percentage) + Contribution(checks[3], percentage)
  {
    assert checks[..0] == [];
    Extend(checks, 0, percentage);
    Extend(checks, 1, percentage);
    Extend(checks, 2, percentage);
    Extend(checks, 3, percentage);
    assert checks[..4] == checks;
  }

  /** The slots after reading the streams one after the other, each stream
      continuing with the slots the previous one left; None when a stream
      throws. */
  function ScanStreams(streams: seq<seq<string>>): (r: Option<Slots>)
    ensures r.Some? ==> |r.value| == SlotCount
    decreases |streams|
  {
    if streams == [] then Some(EmptySlots)
    else match ScanStreams(streams[..|streams| - 1])
      case None => None
      case Some(slots) =>
        match Scan(slots, streams[|streams| - 1])
        case Malformed => None
        case Filled(next) => Some(next)
  }

  /** load: the ratios read from all streams. Without any stream the
      ratios array is never created and reading slot 0 throws. */
  function LoadSlots(streams: seq<seq<string>>): (r: Option<Slots>)
    ensures streams == [] ==> r.None?
    ensures r.Some? ==> |r.value| == SlotCount
  {
    if streams == [] then None else ScanStreams(streams)
  }

  /** The lines of all streams, in order. */
  function AllLines(streams: seq<seq<string>>): seq<string>
    decreases |streams|
  {
    if streams == [] then [] else AllLines(streams[..|streams| - 1]) + streams[|streams| - 1]
  }

  predicate AllWellFormed(streams: seq<seq<string>>) {
    forall i :: 0 <= i < |streams| ==> WellFormed(streams[i])
  }

  lemma WellFormedAppend(a: seq<string>, b: seq<string>)
    requires WellFormed(a) && WellFormed(b)
    ensures WellFormed(a + b)
  {
    forall i | 0 <= i < |a + b| && IsSmallLine((a + b)[i])
      ensures ExtractRatio((a + b)[i]).Some?
    {
      if i < |a| { assert (a + b)[i] == a[i]; } else { assert (a + b)[i] == b[i - |a|]; }
    }
  }

  lemma {:induction false} SmallRatiosAppend(a: seq<string>, b: seq<string>)
    ensures SmallRatios(a + b) == SmallRatios(a) + SmallRatios(b)
    decreases |a|
  {
    if a == [] {
      assert a + b == b;
    } else {
      assert (a + b)[0] == a[0] && (a + b)[1..] == a[1..] + b;
      SmallRatiosAppend(a[1..], b);
    }
  }

  /** Reading well-formed streams one after the other is filling the
      slots with the ratios of all their `<small>` lines in order. */
  lemma {:induction false} ScanStreamsWellFormed(streams: seq<seq<string>>)
    requires AllWellFormed(streams)
    ensures WellFormed(AllLines(streams))
    ensures ScanStreams(streams) == Some(Fill(EmptySlots, SmallRatios(AllLines(streams))))
    decreases |streams|
  {
    if streams != [] {
      var init := streams[..|streams| - 1];
      var last := streams[|streams| - 1];
      assert AllWellFormed(init) by {
        assert forall i :: 0 <= i < |init| ==> init[i] == streams[i];
      }
      ScanStreamsWellFormed(init);
      WellFormedAppend(AllLines(init), last);
      SmallRatiosAppend(AllLines(init), last);
      ScanWellFormed(Fill(EmptySlots, SmallRatios(AllLines(init))), last);
      FillAppend(EmptySlots, SmallRatios(AllLines(init)), SmallRatios(last));
    }
  }

  /** The first four `<small>` lines of all streams, taken in order, fill
      the line, statement, function and branch slots; later ones are
      ignored, and slots stay empty when there are fewer than four. */
  lemma FirstFourWin(streams: seq<seq<string>>)
    requires streams != [] && AllWellFormed(streams)
    ensures WellFormed(AllLines(streams))
    ensures LoadSlots(streams) == Some(Prefixed(FirstFour(SmallRatios(AllLines(streams)))))
  {
    ScanStreamsWellFormed(streams);
    FillFromEmpty(SmallRatios(AllLines(streams)));
  }

  /** Once a stream throws, so does the whole load. */
  lemma {:induction false} ScanStreamsFailurePersists(streams: seq<seq<string>>, j: nat)
    requires j <= |streams| && ScanStreams(streams[..j]).None?
    ensures ScanStreams(streams).None?
    decreases |streams| - j
  {
    if j < |streams| {
      assert streams[..j + 1][..j] == streams[..j];
      ScanStreamsFailurePersists(streams, j + 1);
    } else {
      assert streams[..j] == streams;
    }
  }

  /** load: each stream is scanned into the array the previous one
      returned; the action is built from its four slots. None stands for
      the exceptions of a malformed line or of an empty stream list. */
  method Load(streams: seq<seq<string>>, thresholds: HealthReportThresholds?) returns (action: Option<BuildAction>)
    ensures action.None? <==> LoadSlots(streams).None?
    ensures action.Some? ==> fresh(action.value) && action.value.thresholds == thresholds
                             && action.value.Ratios() == LoadSlots(streams).value
  {
    var ratios: array?<Option<Ratio>> := null;
    for j := 0 to |streams|
      invariant ratios == null <==> j == 0
      invariant ratios != null ==> fresh(ratios) && ratios.Length == SlotCount
                                   && ScanStreams(streams[..j]) == Some(ratios[..])
    {
      assert streams[..j + 1][..j] == streams[..j] && streams[..j + 1][j] == streams[j];
      ghost var slots := if ratios == null then EmptySlots else ratios[..];
      assert ratios != null ==> ratios[..SlotCount] == ratios[..];
      assert StartSlots(ratios) == slots && ScanStreams(streams[..j]) == Some(slots);
      var res, ok := LoadRatios(streams[j], ratios);
      assert res[..SlotCount] == res[..];
      if !ok {
        ScanStreamsFailurePersists(streams, j + 1);
        return None;
      }
      ratios := res;
    }
    if ratios == null {
      return None;
    }
    assert streams[..|streams|] == streams;
    var a := new BuildAction(ratios[0], ratios[1], ratios[2], ratios[3], thresholds);
    return Some(a);
  }

  /** getPreviousResult: walks back from `start` (a position in the
      history) and returns the action of the nearest earlier build that did
      not fail and has one, or None. */
  method PreviousResult(builds: seq<Build<BuildAction>>, start: nat) returns (r: Option<BuildAction>)
    requires start < |builds|
    ensures r == LatestUsableAction(builds, start)
  {
    var b := start;
    while true
      invariant 0 <= b <= start
      invariant LatestUsableIndex(builds, b) == LatestUsableIndex(builds, start)
      decreases b
    {
      if b == 0 {
        return None;
      }
      b := b - 1;
      if builds[b].result == BuildResult.Failure {
        continue;
      }
      var action := builds[b].action;
      if action.Some? {
        return action;
      }
    }
  }
}
