/** The frame around every milestone page and the proof page: the step the
    top bar shows, the context header, the build panel and the footer. */
module RBLayout {
  import opened Options
  import opened Text
  import opened Routes
  import RBStep
  import RBProof
  import BuildTrack
  import Storage

  const ProofPath: string := "/rb/proof"

  /** `isProofPage`: the path contains "/rb/proof". */
  predicate IsProofPage(path: string) {
    Contains(path, ProofPath)
  }

  /** The layout's `currentStep`: the route's step number; without a step
      segment, 8 on the proof page and 0 elsewhere. */
  function CurrentStep(path: string): (step: nat)
    ensures StepNumber(path).Some? ==> step == StepNumber(path).value
    ensures StepNumber(path).None? ==> step == (if IsProofPage(path) then 8 else 0)
  {
    match StepNumber(path)
    case Some(n) => n
    case None => if IsProofPage(path) then 8 else 0
  }

  /** The layout's `getStepTitle`: the milestone's title, "Project Milestone" outside 1..8. */
  function LayoutStepTitle(step: int): string {
    TitleOr(step, "Project Milestone")
  }

  /** The layout and the proof page give the same title to a milestone and
      different fallbacks to any other number. */
  lemma TitlesAgreeOnMilestones(step: int)
    ensures LayoutStepTitle(step) == RBProof.ProofStepTitle(step) <==> 1 <= step <= 8
    ensures !(1 <= step <= 8) ==> LayoutStepTitle(step) == "Project Milestone"
  {
    RBProof.ProofStepTitles(step);
  }

  datatype Header = Header(step: nat, title: string)

  /** What the layout shows: the top bar's step, the context header, the
      step handed to the build panel, and whether the footer is present. */
  datatype Frame = Frame(topBarStep: nat, header: Option<Header>, buildPanelStep: Option<nat>, footer: bool)

  function LayoutOf(path: string): (f: Frame)
    ensures f.topBarStep == CurrentStep(path)
    ensures f.header.Some? <==> !IsProofPage(path)
    ensures f.header.Some? ==> f.header.value == Header(CurrentStep(path), LayoutStepTitle(CurrentStep(path)))
    ensures f.buildPanelStep.Some? <==> !IsProofPage(path)
    ensures f.buildPanelStep.Some? ==> f.buildPanelStep.value == CurrentStep(path)
    ensures f.footer <==> !IsProofPage(path)
  {
    var step := CurrentStep(path);
    var proof := IsProofPage(path);
    Frame(step,
      if proof then None else Some(Header(step, LayoutStepTitle(step))),
      if proof then None else Some(step),
      !proof)
  }

  /** On the route of milestone n the layout shows step n with its title,
      and the build panel works on step n. */
  lemma StepRouteLayout(n: int, path: string)
    requires 1 <= n <= 8 && PathForStep(n) == Some(path)
    ensures LayoutOf(path) == Frame(n, Some(Header(n, LayoutStepTitle(n))), Some(n), true)
  {
    StepOfPath(n, path);
    StepPathIsNotProofPath(n, path);
  }

  /** The proof route has no step segment: the layout shows step 8 and
      neither header, build panel nor footer. */
  lemma ProofRouteLayout()
    ensures StepNumber(ProofPath) == None
    ensures LayoutOf(ProofPath) == Frame(8, None, None, false)
  {
    assert OccursAt(ProofPath, ProofPath, 0);
    forall q | 0 <= q <= |ProofPath| ensures !SegmentAt(ProofPath, q) {
      if q == 0 {
        assert ProofPath[|StepPrefix|..] == "proof";
        assert DigitRun("proof") == 0;
      } else if q + |StepPrefix| <= |ProofPath| {
        assert ProofPath[q..q + |StepPrefix|][0] != StepPrefix[0] || ProofPath[q..q + |StepPrefix|][1] != StepPrefix[1];
      }
    }
  }

  /** When the route has a step segment the layout and the step page agree
      on the step; without one the step page reads 0 and the layout reads 8
      on the proof page. */
  lemma LayoutAndStepPageAgree(path: string)
    ensures StepNumber(path).Some? ==> CurrentStep(path) == RBStep.CurrentStep(path)
    ensures StepNumber(path).None? ==> RBStep.CurrentStep(path) == 0
  {
  }

  /** The build panel's Next button always has a target for every step the
      layout hands it (0 on the index route included): the route of step
      n + 1 before step 8, the proof page from step 8 on. */
  lemma NextTargetDefined(n: int)
    requires 0 <= n
    ensures BuildTrack.NextTarget(n).Some?
    ensures n < 8 ==> BuildTrack.NextTarget(n) == PathForStep(n + 1)
    ensures n >= 8 ==> BuildTrack.NextTarget(n) == Some(ProofPath)
  {
  }

  /** The Next button lands on a page whose layout shows the following
      step, with the build panel on it; from step 8 it lands on the proof
      page, whose layout shows step 8 and no build panel. */
  lemma NextTargetLayout(n: int, target: string)
    requires 0 <= n && BuildTrack.NextTarget(n) == Some(target)
    ensures n < 8 ==> LayoutOf(target) == Frame(n + 1, Some(Header(n + 1, LayoutStepTitle(n + 1))), Some(n + 1), true)
    ensures n >= 8 ==> LayoutOf(target) == Frame(8, None, None, false)
  {
    if n < 8 {
      assert PathForStep(n + 1) == Some(target);
      StepRouteLayout(n + 1, target);
    } else {
      assert target == ProofPath;
      ProofRouteLayout();
    }
  }

  /** Recording "worked" on step n while step n - 1 has no artifact leaves
      step n closed and opens step n + 1. */
  lemma WorkedOnClosedStep(items: Storage.Items, n: int)
    requires n >= 2 && !Storage.HasArtifact(items, n - 1)
    ensures var after := BuildTrack.RecordStatus(items, n, "worked");
      !RBStep.IsPrevCompleted(after, n) && RBStep.IsPrevCompleted(after, n + 1)
  {
    BuildTrack.RecordStatusFrame(items, n, "worked", n - 1);
    BuildTrack.RecordStatusOpensNext(items, n, "worked");
  }

  /** The layout never consults the step page's gate: on a route that reads
      step n, off the proof page, the build panel is present even while the
      page is locked, and recording "worked" there keeps the page locked but
      opens the page of step n + 1. */
  lemma LockedPanelOpensNext(items: Storage.Items, n: int, path: string, next: string)
    requires n >= 2 && StepNumber(path) == Some(n) && StepNumber(next) == Some(n + 1)
    requires !IsProofPage(path) && !Storage.HasArtifact(items, n - 1)
    ensures RBStep.PageFor(items, path).Locked?
    ensures LayoutOf(path).buildPanelStep == Some(n)
    ensures var after := BuildTrack.RecordStatus(items, n, "worked");
      && RBStep.PageFor(after, path).Locked?
      && RBStep.PageFor(after, next) == RBStep.Open(RBStep.Description(n + 1))
  {
    var after := BuildTrack.RecordStatus(items, n, "worked");
    WorkedOnClosedStep(items, n);
    RBStep.GateOnRoute(items, path, n);
    RBStep.GateOnRoute(after, path, n);
    RBStep.GateOnRoute(after, next, n + 1);
  }

  /** The same on the milestone routes themselves: on the locked page of
      step n, "It Worked" in the build panel opens step n + 1 although step
      n - 1 was never completed. */
  lemma LockedStepStillUnlocksNext(items: Storage.Items, n: int, path: string, next: string)
    requires 2 <= n <= 7 && PathForStep(n) == Some(path) && PathForStep(n + 1) == Some(next)
    requires !Storage.HasArtifact(items, n - 1)
    ensures RBStep.PageFor(items, path).Locked?
    ensures LayoutOf(path).buildPanelStep == Some(n)
    ensures var after := BuildTrack.RecordStatus(items, n, "worked");
      && RBStep.PageFor(after, path).Locked?
      && RBStep.PageFor(after, next) == RBStep.Open(RBStep.MilestoneGuide(n + 1))
  {
    StepOfPath(n, path);
    StepOfPath(n + 1, next);
    StepPathIsNotProofPath(n, path);
    LockedPanelOpensNext(items, n, path, next);
  }
}
