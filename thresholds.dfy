/** Health-report thresholds: for each of the four coverage metrics (line,
    statement, function, branch) a minimum and a maximum percentage. */
module Thresholds {

  /** applyRange: `value` clamped into [min, max]; below min gives min,
      above max gives max. */
  function ApplyRange(min: int, value: int, max: int): (r: int)
    ensures min <= max ==> min <= r <= max
    ensures min <= value <= max ==> r == value
    ensures value < min ==> r == min
    ensures min <= value && max < value ==> r == max
  {
    if value < min then min
    else if value > max then max
    else value
  }

  /** The min/max pair of one metric. */
  datatype Range = Range(min: int, max: int)
  {
    /** The invariant the health report relies on. */
    predicate Valid() {
      0 <= min <= max <= 100
    }

    /** ensureValid for one metric: max is clamped into [0, 100] first, and
        min is then clamped into [0, clamped max]. */
    function Clamp(): (r: Range)
      ensures r.Valid()
      ensures r.max == ApplyRange(0, max, 100)
      ensures 0 <= min <= r.max ==> r.min == min
      ensures min > r.max ==> r.min == r.max
      ensures min < 0 ==> r.min == 0
    {
      var hi := ApplyRange(0, max, 100);
      Range(ApplyRange(0, min, hi), hi)
    }
  }

  /** The eight fields of the thresholds object, as one value. */
  datatype Limits = Limits(line: Range, statement: Range, functions: Range, branch: Range)
  {
    predicate Valid() {
      line.Valid() && statement.Valid() && functions.Valid() && branch.Valid()
    }

    function Clamped(): (r: Limits)
      ensures r.Valid()
    {
      Limits(line.Clamp(), statement.Clamp(), functions.Clamp(), branch.Clamp())
    }
  }

  /** Clamping a valid range changes nothing. */
  lemma ClampValidIsIdentity(r: Range)
    requires r.Valid()
    ensures r.Clamp() == r
  {
  }

  /** A range is left unchanged by clamping exactly when it is already valid. */
  lemma ClampFixedPoints(r: Range)
    ensures r.Clamp() == r <==> r.Valid()
  {
  }

  /** ensureValid is idempotent. */
  lemma ClampedIdempotent(l: Limits)
    ensures l.Clamped().Clamped() == l.Clamped()
  {
    ClampValidIsIdentity(l.line.Clamp());
    ClampValidIsIdentity(l.statement.Clamp());
    ClampValidIsIdentity(l.functions.Clamp());
    ClampValidIsIdentity(l.branch.Clamp());
  }

  /** ensureValid leaves valid thresholds unchanged. */
  lemma ClampedValidIsIdentity(l: Limits)
    requires l.Valid()
    ensures l.Clamped() == l
  {
  }

  /** Because max is clamped before min, a min above 100 ends at 100 even
      when the raw max is larger still; bounding min by the raw max would
      have kept 120. */
  lemma MaxClampedBeforeMin()
    ensures Range(120, 150).Clamp() == Range(100, 100)
    ensures ApplyRange(0, 120, 150) == 120
  {
  }

  /** KarmaHealthReportThresholds: eight integer fields updated in place. */
  class HealthReportThresholds {
    var minLine: int
    var maxLine: int
    var minStatement: int
    var maxStatement: int
    var minFunction: int
    var maxFunction: int
    var minBranch: int
    var maxBranch: int

    /** The fields as a value. */
    function Current(): Limits
      reads this
    {
      Limits(Range(minLine, maxLine), Range(minStatement, maxStatement),
             Range(minFunction, maxFunction), Range(minBranch, maxBranch))
    }

    /** The no-argument constructor: every field keeps Java's default 0. */
    constructor Default()
      ensures Current() == Limits(Range(0, 0), Range(0, 0), Range(0, 0), Range(0, 0))
      ensures Current().Valid()
    {
      minLine, maxLine := 0, 0;
      minStatement, maxStatement := 0, 0;
      minFunction, maxFunction := 0, 0;
      minBranch, maxBranch := 0, 0;
    }

    /** The eight-argument constructor stores the arguments and then runs
        ensureValid, so the new object always satisfies the invariant. */
    constructor (minLine: int, maxLine: int, minStatement: int, maxStatement: int,
                 minFunction: int, maxFunction: int, minBranch: int, maxBranch: int)
      ensures Current() == Limits(Range(minLine, maxLine), Range(minStatement, maxStatement),
                                  Range(minFunction, maxFunction), Range(minBranch, maxBranch)).Clamped()
      ensures Current().Valid()
    {
      this.minLine, this.maxLine := minLine, maxLine;
      this.minStatement, this.maxStatement := minStatement, maxStatement;
      this.minFunction, this.maxFunction := minFunction, maxFunction;
      this.minBranch, this.maxBranch := minBranch, maxBranch;
      new;
      EnsureValid();
    }

    /** ensureValid: clamps each metric, max before min. */
    method EnsureValid()
      modifies this
      ensures Current() == old(Current()).Clamped()
      ensures Current().Valid()
    {
      maxLine := ApplyRange(0, maxLine, 100);
      minLine := ApplyRange(0, minLine, maxLine);
      maxStatement := ApplyRange(0, maxStatement, 100);
      minStatement := ApplyRange(0, minStatement, maxStatement);
      maxFunction := ApplyRange(0, maxFunction, 100);
      minFunction := ApplyRange(0, minFunction, maxFunction);
      maxBranch := ApplyRange(0, maxBranch, 100);
      minBranch := ApplyRange(0, minBranch, maxBranch);
    }

    method SetMinLine(v: int)
      modifies this
      ensures Current() == old(Current()).(line := Range(v, old(maxLine)))
    {
      minLine := v;
    }

    method SetMaxLine(v: int)
      modifies this
      ensures Current() == old(Current()).(line := Range(old(minLine), v))
    {
      maxLine := v;
    }

    method SetMinStatement(v: int)
      modifies this
      ensures Current() == old(Current()).(statement := Range(v, old(maxStatement)))
    {
      minStatement := v;
    }

    method SetMaxStatement(v: int)
      modifies this
      ensures Current() == old(Current()).(statement := Range(old(minStatement), v))
    {
      maxStatement := v;
    }

    method SetMinFunction(v: int)
      modifies this
      ensures Current() == old(Current()).(functions := Range(v, old(maxFunction)))
    {
      minFunction := v;
    }

    method SetMaxFunction(v: int)
      modifies this
      ensures Current() == old(Current()).(functions := Range(old(minFunction), v))
    {
      maxFunction := v;
    }

    method SetMinBranch(v: int)
      modifies this
      ensures Current() == old(Current()).(branch := Range(v, old(maxBranch)))
    {
      minBranch := v;
    }

    method SetMaxBranch(v: int)
      modifies this
      ensures Current() == old(Current()).(branch := Range(old(minBranch), v))
    {
      maxBranch := v;
    }
  }
}
