# AI Resume Builder — build track and resume editor, modelled in Dafny

This project models the two logical cores of the AI Resume Builder web application.

**The milestone build track.** Eight fixed project milestones live under routes `/rb/01-problem` to `/rb/08-ship`, followed by the proof page `/rb/proof`. Three parts of the application drive the track:

- **Step page.** It reads the step number out of the route with the pattern `/\/rb\/(\d+)-/`. The page is open for step 1, or when the previous step has a stored, non-empty artifact. Otherwise it shows a "Step Locked" notice whose one button leads to the previous step. The notice does not stop the build panel beside it (see below).
- **Build panel.** It loads the step's artifact and status. It records a status: the statuses `worked` and `screenshot` also store a placeholder artifact URL. It then chooses the next route.
- **Proof page.** It collects the eight-entry completion list. It gates the final submission on every step being complete. It also keeps three delivery links.

The layout around these pages derives the step shown in the top bar. It falls back to step 8 on the proof page and to 0 elsewhere, and it hides the header, build panel and footer on the proof page.

**The resume editor and its preview.** The editor holds one record: personal details, a summary, three lists (education, experience, projects), a skills string and two profile links. It:

- edits fields through one update handler;
- appends blank entries and removes entries by position;
- loads a sample record;
- saves the record to storage.

The preview selects what to show from the stored record:

- a list section appears only when some entry has a non-empty key field, and then shows exactly those entries, in order;
- the skills string becomes comma-separated, trimmed chips;
- each contact item appears only when its text is non-empty.

Modules:

- `Options`: an `Option` type.
- `Decimal`: decimal text of integers (used in template-literal keys) and `parseInt` of digit strings.
- `Text`: `includes`, `trim`, `split` for a one-character separator, and `join`.
- `Resume`: the resume record, the editor's initial record and the sample record.
- `Storage`: the browser's `localStorage` as a class `Local`, with the step keys `rb_step_${n}_artifact` and `rb_step_${n}_status`.
- `Routes`: the route and title tables and the step-segment pattern.
- `RBStep`: the step page.
- `BuildTrack`: the build panel, as a class.
- `RBProof`: the proof page, as a class.
- `RBLayout`: the layout.
- `ResumeEditor`: the editor, as a class.
- `Preview`: the preview.

What the code does, and does not do, in places where one might expect otherwise:

- The code has no ATS scoring, no tips and no step-7 QA checklist.
- The final submission is gated only on the eight step artifacts. The three links play no part (`src/pages/rb/RBProof.jsx:47`, `:130-142`).
- Skills are a single comma-separated string, not a structured object.
- The record is saved on an explicit "save" action, not on a timer.

One behaviour of the code stands out and is modelled as written. The summary text area and the skills input call the update handler with a `null` field and no index (`src/pages/Builder.jsx:117`, `:187`). The handler only writes when an index is given or the field is a string (`src/pages/Builder.jsx:20-28`). So those two inputs never change the record. `ResumeEditor.SummaryAndSkillsEditsDropped` states this.

A second behaviour of the code: the lock is only on the step page. The layout renders the build panel on every milestone route without consulting the gate (`src/layouts/RBLayout.jsx:40-44`), and recording a status does not check it either (`src/components/BuildPanel.jsx:29-39`). So on the locked page of step n, "It Worked" stores step n's artifact. Step n stays locked, but step n + 1 opens and "Next Milestone" is enabled, so a step can be reached without completing the ones before it. `RBLayout.LockedStepStillUnlocksNext` states this.

## Model

| member | source | states |
|---|---|---|
| Routes.PathForStep | src/pages/rb/RBStep.jsx:115-127 | Definition only, no contract of its own: the table of the eight milestone routes, None outside 1..8 (the same table as src/components/BuildPanel.jsx:136-148). What it promises is stated by `Routes.StepsWithRoutes`, `Routes.PathShape` and `Routes.StepOfPath`. |
| Routes.StepNumber | src/pages/rb/RBStep.jsx:10-11 | Definition only: `parseInt` of the captured digits, or None when the pattern does not match. Its meaning is stated by `Routes.StepAtFirstSegment`, `Routes.SegmentOfStepPath` and `Routes.StepOfPath`. |
| Routes.FindSegment | src/pages/rb/RBStep.jsx:10 | The result is the leftmost position at which "/rb/", at least one digit and '-' occur, and nothing earlier matches; None means the pattern matches nowhere in the path. |
| Routes.DigitRun | src/pages/rb/RBStep.jsx:10 | The greedy `\d+`: the result is the longest run of digits at the start of the text (everything before it is a digit, the next character is not). |
| Routes.StepDigits | src/pages/rb/RBStep.jsx:10 | The captured group is a non-empty digit string, and there is no capture exactly when the pattern matches nowhere. |
| Routes.StepAtFirstSegment | src/pages/rb/RBStep.jsx:10-11 | Wherever the leftmost match is, the captured group is the whole digit run after its "/rb/" and the step number is the decimal value of those digits. |
| Routes.SegmentOfStepPath | src/pages/rb/RBStep.jsx:10 | A path that is "/rb/", digits, '-' and anything at all captures exactly those digits. |
| Routes.LeadingZerosInSegment | src/pages/rb/RBStep.jsx:10-11 | Leading zeros in the step segment do not change the parsed step number. |
| Decimal.LeadingZerosIgnored | src/pages/rb/RBStep.jsx:11 | `parseInt` of a digit string ignores any number of leading zeros. |
| Decimal.ParseNatToDecimal | src/pages/rb/RBStep.jsx:17 | Parsing the decimal text of a natural number gives the number back. |
| Decimal.IntToDecimalInjective | src/pages/rb/RBStep.jsx:17 | Different integers (negative ones included) have different decimal texts. |
| Storage.ArtifactKeyInjective | src/pages/rb/RBStep.jsx:17 | `rb_step_${a}_artifact` and `rb_step_${b}_artifact` are the same key exactly when a == b. |
| Storage.StatusKeyInjective | src/components/BuildPanel.jsx:31 | `rb_step_${a}_status` and `rb_step_${b}_status` are the same key exactly when a == b. |
| Storage.ArtifactKeyNotStatusKey | src/components/BuildPanel.jsx:31-37 | No artifact key is ever a status key. |
| Routes.StepsWithRoutes | src/components/BuildPanel.jsx:136-148 | `getPathForStep(n)` is defined exactly for n in 1..8. |
| Routes.PathShape | src/components/BuildPanel.jsx:136-148 | Every step route is "/rb/", '0', the step's digit, '-' and a slug without '/'. |
| Routes.StepOfPath | src/pages/rb/RBStep.jsx:115-127 | Round trip: the step number parsed out of `getPathForStep(n)` is n. |
| Routes.StepPathIsNotProofPath | src/layouts/RBLayout.jsx:9 | No step route contains "/rb/proof". |
| RBStep.CurrentStep | src/pages/rb/RBStep.jsx:10-11 | Definition only: the parsed step number, or 0 without a match. `RBStep.NoSegmentIsStepZero` and `RBLayout.LayoutAndStepPageAgree` state what it yields. |
| RBStep.IsPrevCompleted | src/pages/rb/RBStep.jsx:32 | Definition only: step 1, or a stored non-empty artifact for step n − 1. Its consequences are stated by `RBStep.StepPageGate`, `RBStep.FirstStepAlwaysOpen`, `RBStep.GateIgnoresOtherArtifacts` and `RBStep.GateIgnoresStatuses`. |
| RBStep.NoSegmentIsStepZero | src/pages/rb/RBStep.jsx:11 | A route with no step segment is step 0. |
| RBStep.PageFor | src/pages/rb/RBStep.jsx:32-49 | The page is open exactly when `isPrevCompleted` holds; a locked page names step n − 1 and its one button targets `getPathForStep(n − 1)`. |
| RBStep.FirstStepAlwaysOpen | src/pages/rb/RBStep.jsx:32 | The page of step 1 is open with its own guide, whatever is stored. |
| RBStep.StepPageGate | src/pages/rb/RBStep.jsx:32-49 | On the route of step n, the page is open exactly when n = 1 or step n − 1 has a non-empty artifact; an open page shows step n's guide; a locked page has n ≥ 2 and its notice offers only the (defined) route of step n − 1. This is the step page's own gate: the layout's build panel stays active beside the notice (`RBLayout.LockedStepStillUnlocksNext`). |
| RBStep.GateOnRoute | src/pages/rb/RBStep.jsx:32-49 | For any path whose step segment reads n, the same gate and target hold. |
| RBStep.GateIgnoresOtherArtifacts | src/pages/rb/RBStep.jsx:32 | Writing the artifact of any step other than n − 1 leaves step n's gate unchanged. |
| RBStep.GateIgnoresStatuses | src/pages/rb/RBStep.jsx:32 | Writing any status leaves every gate unchanged. |
| RBStep.Description | src/pages/rb/RBStep.jsx:101-113 | A step gets its own description exactly when it is in 1..8, and the fallback otherwise. |
| RBStep.NearestOpenStep | src/pages/rb/RBStep.jsx:14-30 | The descending scan runs exactly when step > 1 and step − 1 has no artifact. It then stops at the highest step below the current one that has an artifact, or at 1, and every step it passed has none. It terminates and changes no state. |
| BuildTrack.MockArtifact | src/components/BuildPanel.jsx:35 | The placeholder artifact is `https://lovable.dev/projects/rb-step-` followed by the step's decimal text. |
| BuildTrack.MockArtifactInjective | src/components/BuildPanel.jsx:35 | Different steps get different placeholder artifacts. |
| BuildTrack.RecordStatus | src/components/BuildPanel.jsx:29-38 | Definition only: the storage after `handleStatus(t)`. What it changes, and what it leaves alone, is stated by `BuildTrack.RecordStatusOwnStep`, `BuildTrack.RecordStatusFrame`, `BuildTrack.RecordStatusOpensNext` and `BuildTrack.RecordStatusKeepsCompletion`. |
| BuildTrack.RecordStatusOwnStep | src/components/BuildPanel.jsx:29-38 | After recording t, step n's status is t. For `worked`/`screenshot` its artifact is the placeholder, so the step is complete. For any other t (`error` among them) its artifact is neither set nor cleared. |
| BuildTrack.RecordStatusFrame | src/components/BuildPanel.jsx:29-38 | Recording a status on step n leaves every other step's artifact and status as they were. |
| BuildTrack.RecordStatusOpensNext | src/components/BuildPanel.jsx:33-38 | Recording `worked` or `screenshot` on step n unlocks step n + 1. |
| BuildTrack.RecordStatusKeepsCompletion | src/components/BuildPanel.jsx:29-38 | No recorded status ever takes a step's artifact away. |
| BuildTrack.Prompt | src/components/BuildPanel.jsx:122-134 | A step gets its own prompt exactly when it is in 1..8, and the fallback otherwise. |
| BuildTrack.BuildPanel.constructor | src/components/BuildPanel.jsx:5-21 | Mounting loads the stored artifact (or "") and the stored status (possibly absent) of the given step. |
| BuildTrack.BuildPanel.StepChanged | src/components/BuildPanel.jsx:11-21 | On a step change the artifact becomes the stored value or "", and the status becomes the stored value or absent. |
| BuildTrack.BuildPanel.HandleStatus | src/components/BuildPanel.jsx:29-39 | State and storage both become `RecordStatus`: status t is stored for the current step; for `worked`/`screenshot` the artifact becomes the placeholder, the "Next" button is enabled and step n + 1 is unlocked; for other t the artifact is kept. No other step's entries change, nor the stored links or resume. |
| BuildTrack.NextTarget | src/components/BuildPanel.jsx:41-49 | Definition only: the route of step n + 1 before step 8, `/rb/proof` from step 8 on. `RBLayout.NextTargetDefined` and `RBLayout.NextTargetLayout` state its properties. |
| BuildTrack.BuildPanel.NextEnabled | src/components/BuildPanel.jsx:110 | Definition only: the Next button is enabled exactly when the panel's artifact is non-empty. `BuildTrack.BuildPanel.HandleStatus` states that `worked`/`screenshot` enable it. |
| RBLayout.NextTargetDefined | src/components/BuildPanel.jsx:41-49 | For every step the layout hands the panel, 0 on the index route included, `handleNext` has a target: `getPathForStep(n + 1)` for n < 8 and `/rb/proof` from step 8 on. |
| RBLayout.NextTargetLayout | src/components/BuildPanel.jsx:41-49 | The next target from step n < 8 (0 included) is laid out as step n + 1 with its header and build panel; from step 8 it is the proof page, laid out as step 8 without them. |
| RBProof.ProofStepTitle | src/pages/rb/RBProof.jsx:149-161 | Definition only: the proof page's `getStepTitle`, with fallback "Milestone". `RBProof.ProofStepTitles` states its values. |
| RBProof.ProofStepTitles | src/pages/rb/RBProof.jsx:149-161 | A milestone gets its own non-empty title from the table, never "Milestone"; any other number gets "Milestone". |
| RBProof.CollectStepStatus | src/pages/rb/RBProof.jsx:13-23 | The list has exactly 8 entries with ids 1..8 in order and their titles, and entry i is completed exactly when step i has a non-empty artifact. |
| RBProof.AllStepsDone | src/pages/rb/RBProof.jsx:47 | Definition only: the list is non-empty and every entry is completed. What it means for the track is stated by `RBProof.NotDoneBeforeLoad`, `RBProof.AllStepsDoneIffTrackComplete` and `RBProof.DoneTrackOpensEveryStep`. |
| RBProof.NotDoneBeforeLoad | src/pages/rb/RBProof.jsx:47 | `allStepsDone` is false for the empty list shown before the load effect. |
| RBProof.AllStepsDoneIffTrackComplete | src/pages/rb/RBProof.jsx:47 | For a loaded list, `allStepsDone` holds exactly when all eight steps have artifacts. |
| RBProof.DoneTrackOpensEveryStep | src/pages/rb/RBProof.jsx:47 | When `allStepsDone` holds, every milestone page is unlocked. |
| RBProof.LoadedLinks | src/pages/rb/RBProof.jsx:25-26 | The merged links hold the three default keys and the stored keys; stored keys override, and a default key that was not stored stays "". |
| RBProof.ProofPage.constructor | src/pages/rb/RBProof.jsx:4-27 | Mounting builds the completion list from storage and merges the stored links over the defaults. |
| RBProof.ProofPage.CopyEnabled | src/pages/rb/RBProof.jsx:132 | Definition only: the copy button is enabled exactly when `allStepsDone` holds. `RBProof.ProofPage.HandleLinkChange` states that link edits never change it. |
| RBProof.ProofPage.HandleLinkChange | src/pages/rb/RBProof.jsx:29-33 | Key k becomes v, every other key keeps its value, and storage holds a map equal to the new links. The completion list, and so whether the submission can be copied, does not change. |
| RBLayout.IsProofPage | src/layouts/RBLayout.jsx:9 | Definition only: the path contains `/rb/proof`. `RBLayout.ProofRouteLayout` and `Routes.StepPathIsNotProofPath` state which routes satisfy it. |
| RBLayout.CurrentStep | src/layouts/RBLayout.jsx:12-13 | With a step segment the layout's step is its number; without one it is 8 on the proof page and 0 elsewhere. |
| RBLayout.LayoutStepTitle | src/layouts/RBLayout.jsx:60-72 | Definition only: the layout's `getStepTitle`, with fallback "Project Milestone". `RBLayout.TitlesAgreeOnMilestones` states its values. |
| RBLayout.TitlesAgreeOnMilestones | src/layouts/RBLayout.jsx:60-72 | The layout's and the proof page's titles agree exactly on 1..8; elsewhere the layout says "Project Milestone". |
| RBLayout.LayoutOf | src/layouts/RBLayout.jsx:23-55 | The top bar shows the layout's step. The header, build panel and footer are present exactly when the page is not the proof page. A present header carries that step and its layout title, and a present build panel works on that step. |
| RBLayout.WorkedOnClosedStep | src/components/BuildPanel.jsx:29-38 | Recording `worked` on step n while step n − 1 has no artifact leaves step n's gate closed and opens step n + 1's. |
| RBLayout.LockedPanelOpensNext | src/layouts/RBLayout.jsx:40-44 | On any route that reads step n ≥ 2 off the proof page, with step n − 1 incomplete, the page is locked but the build panel is there for step n. After it records `worked` the page is still locked and the page of step n + 1 is open. |
| RBLayout.LockedStepStillUnlocksNext | src/layouts/RBLayout.jsx:40-44 | The same on the milestone routes of steps 2..7: the locked page of step n carries the build panel for step n, and its "It Worked" leaves step n locked while step n + 1's page opens with its guide. |
| RBLayout.StepRouteLayout | src/layouts/RBLayout.jsx:9-13 | On the route of step n the layout shows step n with its title, a build panel for step n and the footer. |
| RBLayout.ProofRouteLayout | src/layouts/RBLayout.jsx:9-13 | `/rb/proof` has no step segment and is laid out as step 8 with no header, build panel or footer. |
| RBLayout.LayoutAndStepPageAgree | src/layouts/RBLayout.jsx:12-13 | With a step segment the layout and the step page read the same step; without one the step page reads 0. |
| Resume.InitialResume | src/pages/Builder.jsx:5-13 | The initial record has empty strings everywhere and exactly one blank entry in each of the three lists. |
| ResumeEditor.InputChange | src/pages/Builder.jsx:17-30 | An applied edit changes nothing outside the named section. A `null` field with no index is a no-op. An indexed edit touches only the list sections. Inside each section the effect is stated by the lemmas in the next rows. |
| ResumeEditor.SummaryAndSkillsEditsDropped | src/pages/Builder.jsx:17-30 | The summary and skills inputs (which pass `null` and no index) leave the record exactly as it was. |
| ResumeEditor.IndexedEducationEdit | src/pages/Builder.jsx:20-21 | An education edit at index i sets the named field of entry i to the value and changes nothing else: the list keeps its length and the other entries, and entry i keeps its other fields. |
| ResumeEditor.IndexedExperienceEdit | src/pages/Builder.jsx:20-21 | The same for an experience edit at index i. |
| ResumeEditor.IndexedProjectEdit | src/pages/Builder.jsx:20-21 | The same for a project edit at index i. |
| ResumeEditor.IndexedEditRejected | src/pages/Builder.jsx:20-21 | An index outside the list, or an index into a section that is not a list, makes the assignment throw, so the edit is rejected. |
| ResumeEditor.NestedPersonalEdit | src/pages/Builder.jsx:22-24 | A personal-details edit sets the named nested field to the value and changes nothing else. |
| ResumeEditor.NestedLinksEdit | src/pages/Builder.jsx:22-24 | A profile-links edit sets the named nested field to the value and changes nothing else. |
| ResumeEditor.TextSectionEdit | src/pages/Builder.jsx:25-27 | A string field with no index on the summary or skills section replaces that section's text with the value, and changes nothing else. |
| ResumeEditor.KeepOthersIsRemoval | src/pages/Builder.jsx:49 | `filter((_, i) => i !== index)` is the list without entry `index`, in order, or the list itself when the index is out of range. |
| ResumeEditor.KeepOthers | src/pages/Builder.jsx:49 | The filtered list is never longer than the list. `ResumeEditor.KeepOthersIsRemoval` states exactly which list it is. |
| ResumeEditor.Appended | src/pages/Builder.jsx:34-44 | Definition only: the record with the section's blank template appended. `ResumeEditor.AppendedShape` states its shape. |
| ResumeEditor.Removed | src/pages/Builder.jsx:46-51 | Definition only: the record with the section's list filtered by position. `ResumeEditor.RemovedShape` states its shape. |
| ResumeEditor.AppendedShape | src/pages/Builder.jsx:34-44 | `addItem` grows the list by one blank entry of the section's shape at its end, and keeps every earlier entry and every other section. |
| ResumeEditor.RemovedShape | src/pages/Builder.jsx:46-51 | `removeItem` drops exactly entry i and keeps the order of the rest; an out-of-range i leaves the list unchanged; other sections are untouched. |
| ResumeEditor.Builder.constructor | src/pages/Builder.jsx:65-68 | The editor starts from the stored record when there is one, and from the initial record otherwise, not saved. |
| ResumeEditor.Builder.HandleInputChange | src/pages/Builder.jsx:17-32 | The record becomes the updater's result, unchanged where JavaScript would throw; the saved flag is cleared. |
| ResumeEditor.Builder.AddItem | src/pages/Builder.jsx:34-44 | The record becomes the appended record; the saved flag is untouched. |
| ResumeEditor.Builder.RemoveItem | src/pages/Builder.jsx:46-51 | The record becomes the record with the entry removed; the saved flag is untouched. |
| ResumeEditor.Builder.LoadSampleData | src/pages/Builder.jsx:53-63 | The whole record is replaced by the sample record. |
| ResumeEditor.Builder.SaveToLocal | src/pages/Builder.jsx:70-74 | Storage holds the current record, the saved flag is set, and nothing else in storage changes. |
| Preview.PreviewOf | src/pages/Preview.jsx:14-23 | "No Data Found" is shown exactly when nothing is stored. |
| Preview.DisplayName | src/pages/Preview.jsx:32 | The name shown is the stored name when that is non-empty and "Your Name" otherwise, so it is never empty. |
| Preview.Contacts | src/pages/Preview.jsx:34-39 | Each of email, phone, location, GitHub and LinkedIn appears exactly when its text is non-empty, and no other item appears. |
| Preview.ProjectView | src/pages/Preview.jsx:81 | A project's link icon appears exactly when its link is non-empty. |
| Preview.Present | src/pages/Preview.jsx:58 | The entries rendered by `map(x => key(x) && …)` all have a non-empty key. |
| Preview.PresentNonEmptyIff | src/pages/Preview.jsx:54-58 | The rendered entries are non-empty exactly when `some(x => key(x))` holds. |
| Preview.PresentConcat | src/pages/Preview.jsx:58 | Selection keeps order: selecting from a + b is selecting from a, then from b. |
| Preview.PresentKeepsEntries | src/pages/Preview.jsx:58 | Every entry with a non-empty key is rendered as often as it occurs. |
| Preview.PresentDropsBlank | src/pages/Preview.jsx:58 | No entry with an empty key is rendered. |
| Preview.PreviewSections | src/pages/Preview.jsx:46-122 | Experience, projects and education each appear exactly when some entry has a non-empty company, title or school, and never as an empty list. Summary and skills appear exactly when their text is non-empty. |
| Preview.PreviewContents | src/pages/Preview.jsx:25-119 | A shown section holds the selected entries (`Present`), projects as their rendered view, or the skill chips, under the display name and the contact items. The lemma only unfolds the page into those helpers. What the page shows comes from the helpers' own contracts and lemmas: `Preview.PresentConcat`, `Preview.PresentKeepsEntries`, `Preview.PresentDropsBlank`, `Preview.SkillChipsShape`, `Preview.Contacts` and `Preview.DisplayName`. |
| Preview.PreviewOfInitialRecord | src/pages/Preview.jsx:32-122 | The stored initial record shows only "Your Name": no contact item and no section. |
| Preview.SkillChips | src/pages/Preview.jsx:115-117 | Definition only: the comma pieces, each trimmed. `Preview.SkillChipsShape` states their number and form. |
| Preview.SkillChipsShape | src/pages/Preview.jsx:111-119 | There is one chip per comma-separated piece, so one more chip than commas, empty pieces included. Each chip is its piece trimmed, with no white space at either end and no comma. |
| Preview.TrimmedChips | src/pages/Preview.jsx:115-117 | Trimming pieces that hold no comma gives chips: no comma and no white space at either end. |
| Text.Trim | src/pages/Preview.jsx:117 | Definition only: trailing white space cut from the text with its leading white space cut. `Text.TrimEnds`, `Text.TrimFree`, `Text.TrimOfPadded` and `Text.TrimIdempotent` state what it does. |
| Text.TrimEnds | src/pages/Preview.jsx:117 | `trim()` never leaves white space at either end. |
| Text.TrimFree | src/pages/Preview.jsx:117 | `trim()` adds no character. |
| Text.TrimOfPadded | src/pages/Preview.jsx:117 | `trim()` removes exactly the white-space padding: a text without white space at its ends comes back from any padding. |
| Text.TrimIdempotent | src/pages/Preview.jsx:117 | Trimming twice is trimming once. |
| Text.Split | src/pages/Preview.jsx:115 | There is always at least one piece. `Text.SplitCount`, `Text.SplitPiecesFree`, `Text.JoinSplit` and `Text.SplitJoin` pin the pieces down. |
| Text.SplitCount | src/pages/Preview.jsx:115 | `split(',')` gives one more piece than there are commas. |
| Text.SplitPiecesFree | src/pages/Preview.jsx:115 | No piece of `split(',')` holds a comma. |
| Text.JoinSplit | src/pages/Preview.jsx:115 | Joining the pieces with the separator gives the original text back. |
| Text.SplitJoin | src/pages/Preview.jsx:115 | Splitting a join of separator-free pieces gives the pieces back. |

## Left out

- ATS scoring, tips and the step-7 QA checklist: no code for them exists in the application's sources, so there is nothing to model.
- A "shipped" condition that requires the three links: the code gates the submission only on the eight steps.
- `localStorage` I/O and `JSON.parse`/`JSON.stringify`. Storage is the class `Storage.Local`: a map of string entries, plus the two JSON-valued entries already decoded. Encoding is taken as an exact round trip, and malformed stored JSON is not modelled.
- `navigator.clipboard`, `navigate`, `new Date().toISOString()`, the `copied` flags, the submission payload and the `setTimeout` resets of `copied` and `isSaved`: these are I/O and timing. Navigation appears only as its target route.
- All JSX structure, CSS and icons. The texts of the descriptions and prompts are reduced to "the step's own text or the fallback".
- React state batching, effect scheduling, and the sharing of nested objects that the shallow copy in `handleInputChange` causes. Only the resulting record is modelled.
- Decimal.ParseDigits: `parseInt` is taken exactly, so the loss of precision above 2^53 is not modelled.
- ResumeEditor.InputChange: a string field with no index on a list section would replace the list with a string in the source. That value has no place in the typed record, so the edit is modelled as `Rejected` and the record is left unchanged. The JavaScript `TypeError` paths are modelled the same way: an index outside the list, and an index into a non-list section.
- ResumeEditor.InputChange: a field name the entry does not have adds a stray property in the source. It is modelled as leaving the record unchanged.
- ResumeEditor.Builder.AddItem and ResumeEditor.Builder.RemoveItem take only the three list sections, because the form calls them with no other section.
- RBStep.NearestOpenStep: the source computes the stopping step and throws it away. The model returns it so that its contract can state what the scan finds.
- `getPathForStep` and `getStepTitle` are duplicated across several source files. Each is modelled once: `Routes.PathForStep`, and `Routes.TitleOr` with each page's fallback.
- src/pages/Home.jsx, src/pages/Proof.jsx, src/layouts/AppLayout.jsx, src/App.jsx and src/components/TopBar.jsx are static pages, routing or display formatting, and are not part of this model.
