/** A milestone page: which step the route names, whether that step is
    open, what a locked page offers, and the scan its gating effect runs. */
module RBStep {
  import opened Options
  import opened Storage
  import opened Routes

  /** `currentStep`: the route's step number, 0 when the route has no step segment. */
  function CurrentStep(path: string): nat {
    StepNumber(path).GetOr(0)
  }

  /** `isPrevCompleted`: step 1 is always open; any other step is open when
      the step before it has a stored, non-empty artifact. */
  predicate IsPrevCompleted(items: Items, step: int) {
    step == 1 || HasArtifact(items, step - 1)
  }

  /** The guidance text of `getStepDescription`, told apart only as a
      milestone's own text or the general fallback. */
  datatype Guide = MilestoneGuide(step: int) | FallbackGuide

  /** `getStepDescription`: the milestone's own text for 1..8, the fallback otherwise. */
  function Description(step: int): (g: Guide)
    ensures g.MilestoneGuide? <==> 1 <= step <= 8
    ensures g.MilestoneGuide? ==> g.step == step
  {
    if 1 <= step <= 8 then MilestoneGuide(step) else FallbackGuide
  }

  /** What the step page shows: the "Step Locked" notice, whose one button
      navigates to `returnTo`, or the milestone guide. */
  datatype StepPage = Locked(previous: int, returnTo: Option<string>) | Open(guide: Guide)

  function PageFor(items: Items, path: string): (page: StepPage)
    ensures page.Open? <==> IsPrevCompleted(items, CurrentStep(path))
    ensures page.Locked? ==> page.previous == CurrentStep(path) - 1 && page.returnTo == PathForStep(page.previous)
  {
    var step := CurrentStep(path);
    if !IsPrevCompleted(items, step) then Locked(step - 1, PathForStep(step - 1))
    else Open(Description(step))
  }

  /** A route without a step segment is step 0. */
  lemma NoSegmentIsStepZero(path: string)
    requires forall q :: 0 <= q <= |path| ==> !SegmentAt(path, q)
    ensures CurrentStep(path) == 0
  {
  }

  /** Step 1's page is open whatever is stored. */
  lemma FirstStepAlwaysOpen(items: Items, path: string)
    requires PathForStep(1) == Some(path)
    ensures PageFor(items, path) == Open(MilestoneGuide(1))
  {
    StepOfPath(1, path);
  }

  /** On the route of step n, the page is open exactly when n is 1 or step
      n - 1 has an artifact; a locked page sends the user only to the route
      of step n - 1 (which names step n - 1, by Routes.StepOfPath). */
  lemma StepPageGate(items: Items, n: int, path: string)
    requires 1 <= n <= 8 && PathForStep(n) == Some(path)
    ensures var page := PageFor(items, path);
      && (page.Open? <==> n == 1 || HasArtifact(items, n - 1))
      && (page.Open? ==> page.guide == MilestoneGuide(n))
      && (page.Locked? ==> 2 <= n && page.previous == n - 1 && page.returnTo == PathForStep(n - 1)
                           && page.returnTo.Some?)
  {
    StepOfPath(n, path);
    StepsWithRoutes(n - 1);
    GateOnRoute(items, path, n);
  }

  lemma GateOnRoute(items: Items, path: string, n: int)
    requires StepNumber(path) == Some(n)
    ensures var page := PageFor(items, path);
      && (page.Open? <==> n == 1 || HasArtifact(items, n - 1))
      && (page.Open? ==> page.guide == Description(n))
      && (page.Locked? ==> page.previous == n - 1 && page.returnTo == PathForStep(n - 1))
  {
  }

  /** Writing the artifact of any other step leaves the gate of step n as it was. */
  lemma GateIgnoresOtherArtifacts(items: Items, n: int, j: int, v: string)
    requires n == 1 || j != n - 1
    ensures IsPrevCompleted(items[ArtifactKey(j) := v], n) == IsPrevCompleted(items, n)
  {
    ArtifactKeyInjective(j, n - 1);
  }

  /** Writing any status leaves every gate as it was. */
  lemma GateIgnoresStatuses(items: Items, n: int, j: int, v: string)
    ensures IsPrevCompleted(items[StatusKey(j) := v], n) == IsPrevCompleted(items, n)
  {
    ArtifactKeyNotStatusKey(n - 1, j);
  }

  /** The scan of the gating effect: when step > 1 and step - 1 has no
      artifact, walk down from step - 1 and stop at the first step that has
      one, or at step 1. The effect computes nothing else and changes
      nothing; the step it stops at is returned here (None when the scan
      does not run). */
  method NearestOpenStep(items: Items, step: int) returns (stop: Option<int>)
    ensures stop.Some? <==> step > 1 && !HasArtifact(items, step - 1)
    ensures stop.Some? ==> 1 <= stop.value < step && (stop.value == 1 || HasArtifact(items, stop.value))
    ensures stop.Some? ==> forall j :: stop.value < j < step ==> !HasArtifact(items, j)
  {
    stop := None;
    if step > 1 {
      var prevStep := step - 1;
      if !HasArtifact(items, prevStep) {
        var i := step - 1;
        while i >= 1
          invariant i <= step - 1
          invariant forall j :: i < j < step ==> !HasArtifact(items, j)
          invariant stop.None?
          invariant 1 <= i
          decreases i
        {
          if HasArtifact(items, i) || i == 1 {
            stop := Some(i);
            break;
          }
          i := i - 1;
        }
      }
    }
  }
}
