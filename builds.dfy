/** The host's build history, abstracted: a job is a name and its builds,
    oldest first, so that a build's "previous build" is the one just before
    it in the sequence and a job's "last build" is the final element. Dates
    are day numbers (the calendar date of the build's timestamp). */
module Builds {
  import opened Wrappers

  /** A coverage ratio as the report parser produces it: covered units over
      total units (both -1 when the report text was unreadable). */
  datatype Ratio = Ratio(numerator: int, denominator: int)

  /** The host's build results, in its order from best to worst. */
  datatype BuildResult = Success | Unstable | Failure | NotBuilt | Aborted

  function Ordinal(r: BuildResult): nat {
    match r
    case Success => 0
    case Unstable => 1
    case Failure => 2
    case NotBuilt => 3
    case Aborted => 4
  }

  /** Result.isWorseThan. */
  predicate IsWorseThan(r: BuildResult, other: BuildResult) {
    Ordinal(r) > Ordinal(other)
  }

  /** A finished build: its date, its result, and the plugin's action
      attached to it, if any (getAction returns null when there is none). */
  datatype Build<A> = Build(day: int, result: BuildResult, action: Option<A>)

  datatype Job<A> = Job(name: string, builds: seq<Build<A>>)

  /** A build whose action the project and build views may show: it did not
      fail and it carries an action. */
  predicate Usable<A>(b: Build<A>) {
    b.result != Failure && b.action.Some?
  }

  /** The position of the most recent usable build strictly before position
      `end`, or -1 when there is none. */
  function LatestUsableIndex<A>(builds: seq<Build<A>>, end: nat): (k: int)
    requires end <= |builds|
    ensures -1 <= k < end
    ensures k >= 0 ==> Usable(builds[k])
    ensures forall j :: k < j < end ==> !Usable(builds[j])
    decreases end
  {
    if end == 0 then -1
    else if Usable(builds[end - 1]) then end - 1
    else LatestUsableIndex(builds, end - 1)
  }

  /** The action of that build, or None. */
  function LatestUsableAction<A>(builds: seq<Build<A>>, end: nat): (r: Option<A>)
    requires end <= |builds|
    ensures r.Some? <==> exists j :: 0 <= j < end && Usable(builds[j])
    ensures r.Some? ==> exists j :: 0 <= j < end && builds[j].result != Failure && builds[j].action == r
  {
    var k := LatestUsableIndex(builds, end);
    if k < 0 then None else builds[k].action
  }

  /** Builds recorded after position `end` do not change what is found
      before it: the search only looks backwards. */
  lemma {:induction false} LatestUsableIgnoresLater<A>(builds: seq<Build<A>>, later: seq<Build<A>>, end: nat)
    requires end <= |builds|
    ensures LatestUsableIndex(builds + later, end) == LatestUsableIndex(builds, end)
  {
    if end > 0 {
      assert (builds + later)[end - 1] == builds[end - 1];
      LatestUsableIgnoresLater(builds, later, end - 1);
    }
  }

  /** Job.getLastSuccessfulBuild of the host: the most recent build whose
      result is Success or Unstable (no worse than Unstable), or -1. */
  function LastSuccessfulIndex<A>(builds: seq<Build<A>>): (k: int)
    ensures -1 <= k < |builds|
    ensures k >= 0 ==> !IsWorseThan(builds[k].result, Unstable)
    ensures forall j :: k < j < |builds| ==> IsWorseThan(builds[j].result, Unstable)
    decreases |builds|
  {
    if builds == [] then -1
    else if !IsWorseThan(builds[|builds| - 1].result, Unstable) then |builds| - 1
    else LastSuccessfulIndex(builds[..|builds| - 1])
  }
}
