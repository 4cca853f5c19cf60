/** The project view's getLastResult, shared by the Karma and the CodeCover
    project actions: the action of the most recent build that did not fail
    and carries one. */
module ProjectAction {
  import opened Wrappers
  import opened Builds

  /** getLastResult: walk back from the last build, skipping failed builds
      and builds without an action. */
  method GetLastResult<A>(project: Job<A>) returns (r: Option<A>)
    ensures r == LatestUsableAction(project.builds, |project.builds|)
    ensures r.None? <==> forall j :: 0 <= j < |project.builds| ==> !Usable(project.builds[j])
  {
    var b := |project.builds| - 1;
    while b >= 0
      invariant -1 <= b < |project.builds|
      invariant LatestUsableIndex(project.builds, b + 1) == LatestUsableIndex(project.builds, |project.builds|)
      decreases b
    {
      var build := project.builds[b];
      if build.result == Failure {
        b := b - 1;
        continue;
      }
      var action := build.action;
      if action.Some? {
        return action;
      }
      b := b - 1;
    }
    return None;
  }
}
