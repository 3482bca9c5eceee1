/** The proof page: the completion list of the eight milestones, the
    `allStepsDone` gate of the final submission, and the three delivery
    links kept in storage. */
module RBProof {
  import opened Options
  import opened Storage
  import opened Routes
  import RBStep

  datatype StepEntry = StepEntry(id: int, title: string, completed: bool)

  /** The proof page's `getStepTitle`: the milestone's title, "Milestone" outside 1..8. */
  function ProofStepTitle(step: int): string {
    TitleOr(step, "Milestone")
  }

  /** A milestone gets its own non-empty title, never the fallback; any
      other number gets "Milestone". */
  lemma ProofStepTitles(step: int)
    ensures 1 <= step <= 8 ==> ProofStepTitle(step) == TitleTable(step).value && ProofStepTitle(step) != "Milestone"
    ensures !(1 <= step <= 8) ==> ProofStepTitle(step) == "Milestone"
  {
  }

  /** The list describes the stored track: eight entries, ids 1..8 in
      order, each completed exactly when its step has an artifact. */
  predicate Reflects(items: Items, status: seq<StepEntry>) {
    |status| == 8 &&
    forall k :: 0 <= k < 8 ==>
      status[k].id == k + 1 && status[k].title == ProofStepTitle(k + 1) &&
      (status[k].completed <==> HasArtifact(items, k + 1))
  }

  /** The loop of the load effect that builds `stepStatus`. */
  method CollectStepStatus(items: Items) returns (stepStatus: seq<StepEntry>)
    ensures Reflects(items, stepStatus)
  {
    stepStatus := [];
    var i := 1;
    while i <= 8
      invariant 1 <= i <= 9 && |stepStatus| == i - 1
      invariant forall k :: 0 <= k < i - 1 ==>
        stepStatus[k].id == k + 1 && stepStatus[k].title == ProofStepTitle(k + 1) &&
        (stepStatus[k].completed <==> HasArtifact(items, k + 1))
    {
      var artifact := Get(items, ArtifactKey(i));
      stepStatus := stepStatus + [StepEntry(i, ProofStepTitle(i), Truthy(artifact))];
      i := i + 1;
    }
  }

  /** `allStepsDone`: the list is non-empty and every entry is completed. */
  predicate AllStepsDone(status: seq<StepEntry>) {
    |status| > 0 && forall k :: 0 <= k < |status| ==> status[k].completed
  }

  /** Before the list is loaded the gate is closed. */
  lemma NotDoneBeforeLoad()
    ensures !AllStepsDone([])
  {
  }

  /** For a loaded list, the gate is open exactly when every one of the
      eight steps has an artifact. */
  lemma AllStepsDoneIffTrackComplete(items: Items, status: seq<StepEntry>)
    requires Reflects(items, status)
    ensures AllStepsDone(status) <==> forall n :: 1 <= n <= 8 ==> HasArtifact(items, n)
  {
    if forall n :: 1 <= n <= 8 ==> HasArtifact(items, n) {
      forall k | 0 <= k < |status| ensures status[k].completed {
        assert HasArtifact(items, k + 1);
      }
    }
    if AllStepsDone(status) {
      forall n | 1 <= n <= 8 ensures HasArtifact(items, n) {
        assert status[n - 1].completed;
      }
    }
  }

  /** With the gate open, every milestone page is open too. */
  lemma DoneTrackOpensEveryStep(items: Items, status: seq<StepEntry>, n: int)
    requires Reflects(items, status) && AllStepsDone(status)
    requires 1 <= n <= 8
    ensures RBStep.IsPrevCompleted(items, n)
  {
    AllStepsDoneIffTrackComplete(items, status);
    if n > 1 {
      assert HasArtifact(items, n - 1);
    }
  }

  /** The initial `links` state. */
  const DefaultLinks: map<string, string> := map["lovable" := "", "github" := "", "deploy" := ""]

  /** `{ ...prev, ...savedLinks }` with `prev` the initial links and
      `savedLinks` the stored object, or `{}` when nothing is stored: stored
      keys override, the three link keys that were not stored stay "". */
  function LoadedLinks(saved: Option<map<string, string>>): (links: map<string, string>)
    ensures links.Keys == DefaultLinks.Keys + saved.GetOr(map[]).Keys
    ensures forall k :: k in saved.GetOr(map[]) ==> links[k] == saved.GetOr(map[])[k]
    ensures forall k :: k in DefaultLinks && k !in saved.GetOr(map[]) ==> links[k] == ""
  {
    DefaultLinks + saved.GetOr(map[])
  }

  class ProofPage {
    const local: Local
    var status: seq<StepEntry>
    var links: map<string, string>

    /** Mounting the page runs its load effect: the completion list from the
        stored artifacts, and the stored links merged over the defaults. */
    constructor (local: Local)
      ensures this.local == local
      ensures Reflects(local.items, status)
      ensures links == LoadedLinks(local.finalLinks)
    {
      this.local := local;
      status := [];
      links := DefaultLinks;
      var stepStatus := CollectStepStatus(local.items);
      status := stepStatus;
      var savedLinks := local.finalLinks.GetOr(map[]);
      links := links + savedLinks;
    }

    /** The "Copy Final Submission" button is enabled exactly when `allStepsDone`. */
    predicate CopyEnabled()
      reads this
    {
      AllStepsDone(status)
    }

    /** `handleLinkChange(key, value)`: only `key` changes, and the stored
        object equals the new links. The completion list, and so whether the
        submission can be copied, does not change. */
    method HandleLinkChange(key: string, value: string)
      modifies this, local
      ensures links == old(links)[key := value]
      ensures key in links && links[key] == value
      ensures forall k :: k in old(links) && k != key ==> k in links && links[k] == old(links)[k]
      ensures local.finalLinks == Some(links)
      ensures local.items == old(local.items) && local.resumeData == old(local.resumeData)
      ensures status == old(status) && CopyEnabled() == old(CopyEnabled())
    {
      var newLinks := links[key := value];
      links := newLinks;
      local.finalLinks := Some(newLinks);
    }
  }
}
