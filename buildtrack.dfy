/** The build panel beside every milestone page: it loads the step's
    artifact and status, records a build status (synthesising a placeholder
    artifact for "worked" and "screenshot") and picks the next route. */
module BuildTrack {
  import opened Options
  import opened Decimal
  import opened Storage
  import opened Routes
  import RBStep

  const ArtifactBase: string := "https://lovable.dev/projects/rb-step-"

  /** The placeholder artifact `https://lovable.dev/projects/rb-step-${step}`. */
  function MockArtifact(step: int): (a: string)
    ensures |a| > |ArtifactBase| && a[..|ArtifactBase|] == ArtifactBase
    ensures a[|ArtifactBase|..] == IntToDecimal(step)
  {
    ArtifactBase + IntToDecimal(step)
  }

  /** Distinct steps get distinct placeholder artifacts. */
  lemma MockArtifactInjective(a: int, b: int)
    requires MockArtifact(a) == MockArtifact(b)
    ensures a == b
  {
    assert IntToDecimal(a) == MockArtifact(a)[|ArtifactBase|..];
    IntToDecimalInjective(a, b);
  }

  /** The statuses that come with a placeholder artifact. */
  predicate MarksArtifact(t: string) {
    t == "worked" || t == "screenshot"
  }

  /** The storage after `handleStatus(t)` on step `step`. */
  function RecordStatus(items: Items, step: int, t: string): Items {
    var withStatus := items[StatusKey(step) := t];
    if MarksArtifact(t) then withStatus[ArtifactKey(step) := MockArtifact(step)] else withStatus
  }

  /** Recording a status stores t as the step's status; "worked" and
      "screenshot" store the placeholder artifact, leaving the step complete;
      any other status, "error" among them, keeps whatever artifact the step
      had. */
  lemma RecordStatusOwnStep(items: Items, step: int, t: string)
    ensures var r := RecordStatus(items, step, t);
      && Get(r, StatusKey(step)) == Some(t)
      && (MarksArtifact(t) ==> Get(r, ArtifactKey(step)) == Some(MockArtifact(step)) && HasArtifact(r, step))
      && (!MarksArtifact(t) ==> Get(r, ArtifactKey(step)) == Get(items, ArtifactKey(step)))
  {
    ArtifactKeyNotStatusKey(step, step);
  }

  /** Recording a status on one step leaves every other step's artifact and
      status as they were. */
  lemma RecordStatusFrame(items: Items, step: int, t: string, j: int)
    requires j != step
    ensures var r := RecordStatus(items, step, t);
      Get(r, ArtifactKey(j)) == Get(items, ArtifactKey(j)) && Get(r, StatusKey(j)) == Get(items, StatusKey(j))
  {
    ArtifactKeyInjective(j, step);
    StatusKeyInjective(j, step);
    ArtifactKeyNotStatusKey(j, step);
    ArtifactKeyNotStatusKey(step, j);
  }

  /** Recording "worked" or "screenshot" on step n opens step n + 1. */
  lemma RecordStatusOpensNext(items: Items, step: int, t: string)
    requires MarksArtifact(t)
    ensures RBStep.IsPrevCompleted(RecordStatus(items, step, t), step + 1)
  {
    RecordStatusOwnStep(items, step, t);
  }

  /** No recorded status ever takes a step's completion away: once a step has
      an artifact, it keeps one. */
  lemma RecordStatusKeepsCompletion(items: Items, step: int, t: string, j: int)
    requires HasArtifact(items, j)
    ensures HasArtifact(RecordStatus(items, step, t), j)
  {
    if j == step {
      RecordStatusOwnStep(items, step, t);
    } else {
      RecordStatusFrame(items, step, t, j);
    }
  }

  /** `handleNext`: the route after step n, or the proof page after step 8. */
  function NextTarget(step: int): Option<string> {
    if step < 8 then PathForStep(step + 1) else Some("/rb/proof")
  }

  /** The prompt of `getPromptForStep`, told apart only as a milestone's own
      prompt or the general fallback. */
  function Prompt(step: int): (g: RBStep.Guide)
    ensures g.MilestoneGuide? <==> 1 <= step <= 8
    ensures g.MilestoneGuide? ==> g.step == step
  {
    if 1 <= step <= 8 then RBStep.MilestoneGuide(step) else RBStep.FallbackGuide
  }

  class BuildPanel {
    const local: Local
    var currentStep: int
    var artifact: string
    var status: Option<string>

    /** Mounting the panel runs its load effect for the step it is given. */
    constructor (local: Local, step: int)
      ensures this.local == local && currentStep == step
      ensures artifact == Get(local.items, ArtifactKey(step)).GetOr("")
      ensures status == Get(local.items, StatusKey(step))
    {
      this.local := local;
      currentStep := step;
      var saved := Get(local.items, ArtifactKey(step));
      artifact := if Truthy(saved) then saved.value else "";
      status := Get(local.items, StatusKey(step));
    }

    /** The load effect when the step changes: the stored artifact or "",
        and the stored status, possibly absent. */
    method StepChanged(step: int)
      modifies this
      ensures currentStep == step
      ensures artifact == Get(local.items, ArtifactKey(step)).GetOr("")
      ensures status == Get(local.items, StatusKey(step))
    {
      currentStep := step;
      var saved := Get(local.items, ArtifactKey(step));
      if Truthy(saved) {
        artifact := saved.value;
      } else {
        artifact := "";
      }
      status := Get(local.items, StatusKey(step));
    }

    /** The "Next Milestone" button is enabled when the panel holds an artifact. */
    predicate NextEnabled()
      reads this
    {
      artifact != ""
    }

    /** `handleStatus(t)`. */
    method HandleStatus(t: string)
      modifies this, local
      ensures currentStep == old(currentStep) && status == Some(t)
      ensures local.items == RecordStatus(old(local.items), currentStep, t)
      ensures local.finalLinks == old(local.finalLinks) && local.resumeData == old(local.resumeData)
      ensures artifact == if MarksArtifact(t) then MockArtifact(currentStep) else old(artifact)
      ensures MarksArtifact(t) ==> NextEnabled() && RBStep.IsPrevCompleted(local.items, currentStep + 1)
      ensures forall j :: j != currentStep ==>
        Get(local.items, ArtifactKey(j)) == Get(old(local.items), ArtifactKey(j)) &&
        Get(local.items, StatusKey(j)) == Get(old(local.items), StatusKey(j))
    {
      status := Some(t);
      local.items := local.items[StatusKey(currentStep) := t];
      if MarksArtifact(t) {
        var mockArtifact := MockArtifact(currentStep);
        artifact := mockArtifact;
        local.items := local.items[ArtifactKey(currentStep) := mockArtifact];
        RecordStatusOpensNext(old(local.items), currentStep, t);
      }
      forall j | j != currentStep
        ensures Get(local.items, ArtifactKey(j)) == Get(old(local.items), ArtifactKey(j))
        ensures Get(local.items, StatusKey(j)) == Get(old(local.items), StatusKey(j))
      {
        RecordStatusFrame(old(local.items), currentStep, t, j);
      }
    }
  }
}
