# Face unlock: enrolment, attempts and keys

A Dafny model of the parts of a Windows face unlock system that decide outcomes: which
face templates an enrolment publishes, which enrolment sessions exist, when a frame
authenticates, and which master key the initialisers of a credential store agree on.
Everything the outside world answers (camera, face models, processes, clocks, files,
protection of keys) is a parameter that may have any value of its type.

| file | what it models |
|---|---|
| `GuidedEnrollment.dfy` | the guided enrolment service: observing, previewing, finishing |
| `TemplateSelection.dfy`, `GreedySelection.dfy`, `StableSort.dfy` | the choice of templates and why it is the best one |
| `EnrollmentOutcome.dfy`, `EnrollmentReport.dfy` | what a finished template set and its report hold |
| `GuidedDriver.dfy` | the command that runs the enrolment step by step |
| `PoseCalibration.dfy`, `EnrolledPerson.dfy` | laws of whole enrolments: the zero of the head pose angles decides nothing, and all templates are of one person |
| `EnrollmentRuntime.dfy`, `SessionIds.dfy` | the table of enrolment sessions behind the control panel |
| `AttemptPolicy.dfy`, `Authenticator.dfy`, `TemplateMatcher.dfy`, `Embeddings.dfy`, `Calibration.dfy` | matching, acceptance, cooldown, and the calibration report |
| `KeyFile.dfy`, `KeyProtocol.dfy` | the key file and the protocol of its creation |
| `Quality.dfy`, `SampleScores.dfy`, `FacePose.dfy`, `LivenessCrop.dfy` | sample quality, what its scores mean, and crop arithmetic |
| `ControlSettings.dfy` | the settings of the control panel, written as a patch and read back |
| `FaceEngine.dfy`, `EnrollmentSteps.dfy`, `RealMath.dfy`, `RustInts.dfy`, `Decimals.dfy`, `Wrappers.dfy` | shared data, numbers and strings |

The objects whose methods update fields are classes. Each keeps a ghost history of what
happened to it, and its invariant says what every field means in terms of that history, so
that properties of whole runs are lemmas about histories: about lists of frames, of policy
events, of session tables, and of the states of concurrent initialisers.

Five results differ from what one might expect, or from what the code seems to intend:

- On the scan path a rejected frame does not touch the match count, so "consecutive"
  matches there means matches with no recorded failure and no reset in between.
- The calibration report's prediction agrees with the attempt policy for every required
  count except zero, where the policy still needs one match (`Calibration.ReportAgreesWithPolicy`,
  and `Calibration.ZeroRequiredExample` for an input). The command line accepts a count of zero.
- The rounded liveness crop can reach one pixel past the frame; `LivenessCrop.RoundedSpanStaysInside`
  says exactly when.
- The reason `FaceTooSmall` is also given to a face that takes more than 69.5 hundredths of the
  picture (`SampleScores.WhichFacesAreTooSmall`), and `DuplicateTooSimilar` to every candidate
  that finds its group full (`EnrollmentOutcome.VerdictsArePublished`).
- Partial enrolment may end the frontal step without a sample, and then no other sample is
  compared with any (`GuidedEnrollment.ConsistencyIsDemanded`); for partial enrolment
  `EnrolledPerson.CompletedRunEnrollsOnePerson` therefore asks for a frontal sample.

Two more hold of a function taken alone, and its callers never show them. A cooldown whose
end does not fit into 64 bits is over at once
(`AttemptPolicies.CooldownLastsUnlessTheClockOverflows`, `AttemptPolicies.NoThrottleAtTheEndOfTime`),
which is why the throttle bound assumes that it fits; every policy that the programs set up
has a cooldown of 30 seconds, and the clock counts from 1970. And an update of the settings with an
invalid threshold has written the fields in front of it before it fails
(`ControlSettings.RefusedPatchIsPartlyWritten`), but only when `update_control_settings` is
called directly: the service and the control panel check the values first, and behind that
check no update fails for a value (`ControlSettings.SettingsSource.UpdateSettings`).

The published `selected_template_count` counts blink samples besides templates. The bound on
recorded failures is L * (T / d + 1) for a limit L, an interval of length T and a cooldown
of d milliseconds, with a history that reaches it.

`dafny verify dfyconfig.toml` checks everything.

## Model

| member | source | states |
|---|---|---|
| `GuidedEnrollment.GuidedFaceEnrollmentService.ObserveFrame` | crates/face_auth/src/guided_enrollment.rs:128-257 | an error changes nothing; any answer adds exactly one entry to the history, the candidate or the rejected sample, and all fields go on meaning what the history says |
| `GuidedEnrollment.GuidedFaceEnrollmentService.Judge` | crates/face_auth/src/guided_enrollment.rs:172-188 | the scores of a sample and its verdict, inconsistency with the primary embedding taking precedence over the quality floors |
| `GuidedEnrollment.GuidedFaceEnrollmentService.RecordJudged` | crates/face_auth/src/guided_enrollment.rs:190-245 | a sample with a reject reason joins the rejected samples, any other one becomes a candidate |
| `GuidedEnrollment.GuidedFaceEnrollmentService.KeepCandidate` | crates/face_auth/src/guided_enrollment.rs:225-245 | the complete new state: candidate filed under its group, primary embedding set by the first frontal one, baseline samples extended |
| `GuidedEnrollment.GuidedFaceEnrollmentService.RecordFrontalPoseBaseline` | crates/face_auth/src/guided_enrollment.rs:344-362 | frontal poses are collected until there are three, then both baselines are their medians and stay |
| `GuidedEnrollment.GuidedFaceEnrollmentService.PreviewFrameForStep` | crates/face_auth/src/guided_enrollment.rs:259-327 | previewing gives its verdict and changes nothing of the service |
| `GuidedEnrollment.PreviewIsNoStricter` | crates/face_auth/src/guided_enrollment.rs:128-327 | a frame that capturing accepts, previewing accepts with at least its quality; outside the frontal step both say exactly the same |
| `GuidedEnrollment.WhatFrontalCaptureAdds` | crates/face_auth/src/guided_enrollment.rs:166-188 | in the frontal step capturing accepts exactly what previewing accepts and whose own weighted quality reaches the floor |
| `GuidedEnrollment.ReferenceIsStable` | crates/face_auth/src/guided_enrollment.rs:162-238 | over any further frames a primary embedding and the baselines never change once set, and both baselines appear with the third frontal pose |
| `GuidedEnrollment.BaselineIsTheMiddleReading` | crates/face_auth/src/guided_enrollment.rs:344-362 | each baseline is one of the first three frontal readings with at least two of them on either side of it or equal |
| `GuidedEnrollment.CandidatesAreSound` | crates/face_auth/src/guided_enrollment.rs:174-245 | after any frames every candidate has its step's group, no reject reason, and meets every floor of the policy |
| `GuidedEnrollment.StoreHoldsTheCandidates` | crates/face_auth/src/guided_enrollment.rs:242-245 | the map of groups holds each group's accepted samples in order, and no empty group |
| `GuidedEnrollment.ConsistencyIsDemanded` | crates/face_auth/src/guided_enrollment.rs:166-188 | a single face is refused as inconsistent if and only if the step is not the frontal one, there is a primary embedding, and the similarity to it is below the threshold |
| `GuidedEnrollment.EntryTellsOfItsFrame` | crates/face_auth/src/guided_enrollment.rs:136-257 | the sample a frame leaves behind carries the verdict and scores that the observation reports, the box and raw angles of that frame and, if accepted, its embedding, the user and the model |
| `GuidedEnrollment.SampleIdsAreDistinct` | crates/face_auth/src/guided_enrollment.rs:193 | two samples share an id only if step, time and frame index are the same |
| `PoseCalibration.ObservedPoseIsTheDeviation` | crates/face_auth/src/guided_enrollment.rs:329-342 | without baselines the observed pose is the raw one; a raw pose equal to the baselines is observed with yaw and pitch zero |
| `PoseCalibration.OffsetDecidesNothing` | crates/face_auth/src/guided_enrollment.rs:329-342 | adding constants to the two baselines and to the raw pose changes neither capture nor preview |
| `PoseCalibration.ReferenceMoves` | crates/face_auth/src/guided_enrollment.rs:344-362 | moving all raw poses of a history moves its baselines by the same constants and leaves the primary embedding |
| `PoseCalibration.FrameIsJudgedAlike` | crates/face_auth/src/guided_enrollment.rs:128-327 | after two histories that differ by such an offset, frames that differ by it get the same observation and preview and leave the same entry, raw angles apart |
| `PoseCalibration.CapturesAreJudgedAlike` | crates/face_auth/src/guided_enrollment.rs:128-362 | lifted to any number of frames: once the baselines are set, moved frames leave the moved history, entry by entry |
| `GuidedEnrollment.GuidedFaceEnrollmentService.Finish` | crates/face_auth/src/guided_enrollment.rs:364-450 | the published set is the one that the lemmas about outcomes speak of, for every history |
| `TemplateSelection.SelectRanked` | crates/face_auth/src/guided_enrollment.rs:394-418 | the loop keeps and drops exactly what the greedy choice from the ranking keeps and drops, in order |
| `TemplateSelection.SelectFromGroups` | crates/face_auth/src/guided_enrollment.rs:376-419 | group by group, templates of other groups never count as duplicates or against the target, and each group is removed from the map |
| `TemplateSelection.KeepLeftovers` | crates/face_auth/src/guided_enrollment.rs:420-425 | what no group took is published, unselected, whatever order the map is walked in |
| `TemplateSelection.LoopTests` | crates/face_auth/src/guided_enrollment.rs:395-412 | counting the group's templates and comparing with them is the same as asking the greedy choice for room and repetition |
| `TemplateSelection.SummaryIsTrue` | crates/face_auth/src/guided_enrollment.rs:573-597 | the published minimum is attained and a lower bound, the average is no lower, and both exist exactly when something was kept |
| `TemplateSelection.SummaryAverage` | crates/face_auth/src/guided_enrollment.rs:573-597 | the published average is the sum of the kept scores over their number, although it is taken over the sorted scores |
| `GreedySelection.GreedyKeeps` | crates/face_auth/src/guided_enrollment.rs:394-418 | a position is kept if and only if there is room and it repeats nothing kept before it |
| `GreedySelection.GreedyIsAdmissible` | crates/face_auth/src/guided_enrollment.rs:394-418 | the choice respects the target and holds no item that repeats an earlier one |
| `GreedySelection.GreedyIsFirst` | crates/face_auth/src/guided_enrollment.rs:394-418 | no admissible choice precedes it lexicographically |
| `GreedySelection.FirstIsUnique` | crates/face_auth/src/guided_enrollment.rs:394-418 | the choice is the only admissible one that is lexicographically first |
| `StableSort.SortIsAPermutation` | crates/face_auth/src/guided_enrollment.rs:387-393 | the sort orders the candidates and neither loses nor adds one |
| `StableSort.SortIsStable` | crates/face_auth/src/guided_enrollment.rs:387-393 | candidates of equal quality keep their order of arrival |
| `StableSort.MedianIsInTheMiddle` | crates/face_auth/src/guided_enrollment.rs:613-617 | the median is one of the values, with at least half of them on either side of it or equal |
| `StableSort.MedianIsRaised` | crates/face_auth/src/guided_enrollment.rs:613-617 | adding a constant to all values adds it to the median |
| `EnrollmentOutcome.RankingIsByQuality` | crates/face_auth/src/guided_enrollment.rs:387-393 | the ranking of a group is its candidates, best quality first and otherwise in the order of arrival |
| `EnrollmentOutcome.FinishChoosesOptimally` | crates/face_auth/src/guided_enrollment.rs:376-419 | the published templates of a group are those at the positions of any choice that is admissible and lexicographically first among the admissible ones |
| `EnrollmentOutcome.BestChoiceExists` | crates/face_auth/src/guided_enrollment.rs:376-419 | such a choice exists for every ranking, target and notion of similarity |
| `EnrollmentOutcome.LeftOutWithReason` | crates/face_auth/src/guided_enrollment.rs:395-415 | the best candidate is never left out; any other left-out one met a full group or duplicates a kept one of at least its quality |
| `EnrollmentOutcome.PublishedTemplatesAreDistinct` | crates/face_auth/src/guided_enrollment.rs:403-414 | among the published templates of a group none is too similar to an earlier one |
| `EnrollmentOutcome.PublishedEmbeddingsDiffer` | crates/face_auth/src/guided_enrollment.rs:403-414 | of two published templates of a group with comparable embeddings the dot product is below the threshold times their lengths |
| `EnrollmentOutcome.UnpublishedCandidatesResemble` | crates/face_auth/src/guided_enrollment.rs:395-415 | a candidate without a published template met a full group, of two or for pitch one, or its dot product with a published embedding of at least its quality reaches the threshold times their lengths |
| `EnrollmentOutcome.NoMultipleIsPublished` | crates/face_auth/src/guided_enrollment.rs:557-571 | with a threshold of at most one no published template of a group is a positive multiple of an earlier one |
| `EnrollmentOutcome.TemplatesPerGroup` | crates/face_auth/src/guided_enrollment.rs:538-555 | a group has at most its target of templates, and at least one exactly when it has a candidate |
| `EnrollmentOutcome.AtMostEightTemplates` | crates/face_auth/src/guided_enrollment.rs:376-419 | no enrolment publishes more than eight templates |
| `EnrollmentOutcome.EverySampleIsPublishedOnce` | crates/face_auth/src/guided_enrollment.rs:372-431 | conservation: apart from verdicts, the published samples are the observed ones as a multiset |
| `EnrollmentOutcome.SummaryCounts` | crates/face_auth/src/guided_enrollment.rs:428-431 | the rejected count is the number of published samples with a reason; the selected count is templates plus blink candidates; together they count every frame |
| `EnrollmentOutcome.SummaryMinimumMeetsTheFloor` | crates/face_auth/src/guided_enrollment.rs:428-445 | a published minimum quality is at least the published `min_quality_score` |
| `EnrollmentOutcome.TemplatesAreFitForUnlock` | crates/face_auth/src/guided_enrollment.rs:198-229 | every published template is selected for unlocking and carries a quality of at least the floor |
| `EnrollmentOutcome.VerdictsArePublished` | crates/face_auth/src/guided_enrollment.rs:376-431 | every published sample by its place: those of the templates are selected, blink samples kept unselected, rejected ones as they were, leftovers marked as duplicates |
| `EnrollmentReport.BuildGuidedEnrollmentReport` | crates/face_auth/src/guided_enrollment.rs:453-498 | the report lists, in sort order, every pose group and reject reason that occurs with the number of its occurrences, and nothing else |
| `EnrollmentReport.CountMarks` | crates/face_auth/src/guided_enrollment.rs:454-465 | the counting loop: a key is counted exactly when it occurs, and as often |
| `EnrollmentReport.ListCounts` | crates/face_auth/src/guided_enrollment.rs:467-483 | collecting the counts in any order and sorting lists them strictly in order of rank |
| `EnrollmentReport.TalliesAddUp` | crates/face_auth/src/guided_enrollment.rs:454-483 | the counts of such a list add up to the number of occurrences |
| `EnrollmentReport.TalliesAreDetermined` | crates/face_auth/src/guided_enrollment.rs:467-483 | the list does not depend on the order in which a hash map is walked |
| `EnrollmentReport.PlaceFollowsTheNames` | crates/face_auth/src/guided_enrollment.rs:483 | the order of the reject reasons is the alphabetical order of their names |
| `EnrollmentReport.ReportAgreesWithSummary` | crates/face_auth/src/guided_enrollment.rs:485-498 | of a finished enrolment, group counts add up to the templates and reason counts to the summary's rejected samples |
| `EnrollmentReport.TemplatesStandInOrder` | crates/face_auth/src/guided_enrollment.rs:376-419 | the published templates stand group by group, in the order in which the report lists the groups |
| `EnrollmentReport.GroupsAreListedInOrder` | crates/face_auth/src/guided_enrollment.rs:599-611 | reports list the groups in the stated order |
| `EnrollmentSteps.SupportedStepsAreDistinct` | crates/face_auth/src/enrollment_steps.rs:26-32 | exactly the supported steps come up, each once |
| `EnrollmentSteps.StepsInOrder` | crates/face_auth/src/enrollment_steps.rs:15-32 | the steps of a run in their order: the five head poses, the frontal one first, if head poses are supported, then blinking if that is |
| `GuidedDriver.WaitForPose` | crates/diagnostics_cli/src/commands.rs:831-887 | waiting ends at the first moment the pose has been held for enough previewed frames in a row, or after the allowed number of frames; the service does not change |
| `GuidedDriver.HeldPosesAreSteady` | crates/diagnostics_cli/src/commands.rs:831-887 | the pose counts as held for k frames if and only if each of the last k frames shows it |
| `GuidedDriver.WhichFramesShowThePose` | crates/diagnostics_cli/src/commands.rs:1543-1552 | a frame shows the pose if and only if it has one face, large enough, in the pose and like the primary one, and it is blurred, badly lit or meets the remaining floors |
| `GuidedDriver.ObservationMatchesEntry` | crates/diagnostics_cli/src/commands.rs:1554-1561 | the sample gate passes exactly the observations that stored a candidate |
| `GuidedDriver.CaptureShot` | crates/diagnostics_cli/src/commands.rs:931-967 | one captured frame: what it adds to the history, whether it counts, and whether it becomes the avatar |
| `GuidedDriver.CaptureFrames` | crates/diagnostics_cli/src/commands.rs:926-1002 | the frames read, observed in order, are what the history gained; the counters and the frame index say so, and the loop stops at the asked or the allowed number |
| `GuidedDriver.CapturesAreStored` | crates/diagnostics_cli/src/commands.rs:926-1002 | a step stores as many candidates as the driver counts, all of them for this step |
| `GuidedDriver.AvatarIsTheBest` | crates/diagnostics_cli/src/commands.rs:943-957 | the avatar is the frame of the frontal candidate of highest quality, the first among equals, and there is one exactly when there is such a candidate |
| `GuidedDriver.EnrollStep` | crates/diagnostics_cli/src/commands.rs:831-1025 | a step previews, then captures only once the pose was steady; it stores what was asked for or reports how it fell short, and fails exactly when it may not fall short |
| `GuidedDriver.EnrollSteps` | crates/diagnostics_cli/src/commands.rs:815-1026 | over all steps: every step is settled, unsupported steps store nothing, no reason against the run means that all steps are complete; and the frames that the camera delivered, split by step into previewed and captured ones, account for the history step by step |
| `GuidedDriver.CapturedFramesWereRead` | crates/diagnostics_cli/src/commands.rs:815-1026 | the captured frames of a run are a subsequence of the frames read |
| `GuidedDriver.RunGuidedEnroll` | crates/diagnostics_cli/src/commands.rs:743-1041 | every way a run can end: what a completed one publishes and from which of the frames read, that an incomplete mandatory step closes the camera, and that without supported steps nothing is read |
| `GuidedDriver.CompletedRunCoversTheFace` | crates/diagnostics_cli/src/commands.rs:815-1041 | a completed run without partial enrolment that asks for a frame per step has stored exactly that many for every mandatory step that the pose provider supports, has one or two templates of front, left and right where these are supported, at most one of either pitch and eight in all, and publishes the thresholds 0.45, the option, 3 and 0.55 |
| `EnrolledPerson.SamplesAreOfOnePerson` | crates/face_auth/src/guided_enrollment.rs:166-245 | in a history of frames judged in the order of the steps every accepted sample of a later step is as similar to the primary embedding as demanded |
| `EnrolledPerson.RunsStayFair` | crates/diagnostics_cli/src/commands.rs:815-1026 | over all frames of a run the accepted samples are filed under the group of their step, turned as asked measured from the baselines of that moment, like the primary one, and frontal ones come first |
| `EnrolledPerson.CompletedRunEnrollsOnePerson` | crates/diagnostics_cli/src/commands.rs:743-1041 | every template a completed run publishes shows a face turned as its group says, is of the user and the model, and is as similar to the first frontal face as the configuration demands |
| `GuidedDriver.BlinkOnlyRunHasNoTemplates` | crates/diagnostics_cli/src/commands.rs:786-1041 | for a pose provider that knows only blinks, a combination that the type of capabilities allows and no provider of the repository has: a completed run publishes no template, yet a selected count |
| `EnrollmentRuntime.RefreshEvolves` | crates/control_backend/src/lib.rs:2563-2630 | whatever files, clock and process say, a refresh keeps process, summary and failure message in step with the state, and never touches an ended session |
| `EnrollmentRuntime.StepKeepsInvariant` | crates/control_backend/src/lib.rs:649-801 | every call, failing ones included, keeps sessions consistent, under their own ids and directories, and at most one running |
| `EnrollmentRuntime.RunKeepsInvariant` | crates/control_backend/src/lib.rs:649-801 | that invariant holds after any sequence of calls |
| `EnrollmentRuntime.EndedSessionsAreFrozen` | crates/control_backend/src/lib.rs:649-801 | over any sequence of calls no session is lost, an ended one never changes, and a running one keeps its process |
| `EnrollmentRuntime.SessionsAreSeparate` | crates/control_backend/src/lib.rs:667-684 | at any time two sessions never both run or hold a process, and their directories differ |
| `EnrollmentRuntime.HowARefreshEnds` | crates/control_backend/src/lib.rs:2563-2654 | a running session is completed, with the summary of its process, if and only if the process exited successfully and left one; failed, with a message saying why, if and only if the start took too long, the exit was unsuccessful or there is no summary; otherwise it goes on |
| `EnrollmentRuntime.WhichErrorARefreshReports` | crates/control_backend/src/lib.rs:2563-2630 | the error of a refresh is that of the operation that failed or of the unreadable summary, and there is none otherwise |
| `EnrollmentRuntime.HowACancellationEnds` | crates/control_backend/src/lib.rs:721-748 | a running session is cancelled if and only if its process can be; an ended one is left alone |
| `EnrollmentRuntime.EndedSessionsHaveAReason` | crates/control_backend/src/lib.rs:649-801 | in any sequence of calls a session found ended has one call that ended it, for a reason observed then: a successful exit with just that summary, what the failure message says, or a cancellation |
| `EnrollmentRuntime.CommandFaceEnrollmentSession.ApplyRuntimeStatus` | crates/control_backend/src/lib.rs:2632-2654 | the status file sets the progress, and the state only to a running one |
| `EnrollmentRuntime.CommandFaceEnrollmentSession.Refresh` | crates/control_backend/src/lib.rs:2563-2630 | the session after a refresh and the reported error, for every combination of status file, time-out, exit and summary |
| `EnrollmentRuntime.CommandFaceEnrollmentRuntime.RefreshAll` | crates/control_backend/src/lib.rs:649-665 | refreshes sessions in any order up to the first error; says whether one still runs |
| `EnrollmentRuntime.CommandFaceEnrollmentRuntime.Start` | crates/control_backend/src/lib.rs:649-685 | succeeds exactly when the refresh finds nothing running and directory and process can be had; then exactly one session is added under a new id, otherwise none, and the error says why |
| `EnrollmentRuntime.CommandFaceEnrollmentRuntime.GetStatus` | crates/control_backend/src/lib.rs:687-702 | refreshes this session only and reports it, or the error of the refresh |
| `EnrollmentRuntime.CommandFaceEnrollmentRuntime.GetPreview` | crates/control_backend/src/lib.rs:704-719 | touches the table no more than a status query, and answers for an unknown session as that does |
| `EnrollmentRuntime.CommandFaceEnrollmentRuntime.Cancel` | crates/control_backend/src/lib.rs:721-748 | a running session is cancelled unless its process cannot be; an ended one is reported unchanged |
| `EnrollmentRuntime.CommandFaceEnrollmentRuntime.Finish` | crates/control_backend/src/lib.rs:750-801 | what finishing reports in every state; for a completed session the summary is there, so its absence is never reported |
| `SessionIds.NextFaceEnrollmentSessionId` | crates/control_backend/src/lib.rs:2714-2730 | with fewer than 2^32 sessions the id is unused, and it is the plain one whenever that is free |
| `SessionIds.TakenIdsCount` | crates/control_backend/src/lib.rs:2718-2727 | pigeonhole: n suffixes that are all taken need more than n sessions |
| `SessionIds.SuffixedIdsAreDistinct` | crates/control_backend/src/lib.rs:2722-2726 | different suffixes give different ids, none of them the plain id |
| `SessionIds.SanitizeSessionPathSegment` | crates/control_backend/src/lib.rs:2794-2811 | the result is a non-empty harmless path segment, and is the name itself exactly when the name is one |
| `SessionIds.OutputDirsDiffer` | crates/control_backend/src/lib.rs:1002-1012 | names that are path segments already, as all session ids are, get the same directory only if they are the same |
| `SessionIds.DirectoriesCoincide` | crates/control_backend/src/lib.rs:2794-2811 | any two names get the same directory if and only if they look alike character by character, harmless characters counting for themselves, all others and the hyphen as one, and the empty name as the default one |
| `SessionIds.DirectoryStaysBelowTheRoot` | crates/control_backend/src/lib.rs:1002-1012 | whatever the id, its directory is a direct child of the root without separators or dots in its name |
| `AttemptPolicies.AttemptPolicy.CooldownIsActive` | crates/face_auth/src/policy.rs:70-80 | the answer, and that the counters are those of the longer history |
| `AttemptPolicies.AttemptPolicy.RecordMatchResult` | crates/face_auth/src/policy.rs:82-105 | the decision for matches, failures and intruders, and the counters of the longer history |
| `AttemptPolicies.AttemptPolicy.RecordFailedAttempt` | crates/face_auth/src/policy.rs:107-119 | a cooldown starts exactly when the decision says so |
| `AttemptPolicies.AttemptPolicy.ResetConsecutiveMatches` | crates/face_auth/src/policy.rs:121-123 | the match count starts again, the rest stays |
| `AttemptPolicies.PendingMatchesStayBelowCost` | crates/face_auth/src/policy.rs:82-100 | after any calls the stored match count is below what an acceptance costs |
| `AttemptPolicies.AcceptanceWindow` | crates/face_auth/src/policy.rs:82-123 | a match is accepted if and only if it completes the required number of matches with no recorded failure, reset or acceptance between them |
| `AttemptPolicies.CooldownWindow` | crates/face_auth/src/policy.rs:70-119 | a recorded failure starts a cooldown if and only if the failures since the last match or the last question that found a cooldown over reach the limit |
| `AttemptPolicies.FirstFailureAfterMatch` | crates/face_auth/src/policy.rs:82-119 | with a limit of at least two the first failure after a match never starts a cooldown |
| `AttemptPolicies.FailuresStayWithinLimit` | crates/face_auth/src/policy.rs:70-119 | on guarded paths the failures since then never exceed the limit, so a cooldown takes exactly that many |
| `AttemptPolicies.AcceptanceWindowsAreDisjoint` | crates/face_auth/src/policy.rs:82-123 | no match backs two acceptances |
| `AttemptPolicies.AcceptancesArePaidFor` | crates/face_auth/src/policy.rs:82-123 | acceptances times their cost never exceed the recorded matches |
| `AttemptPolicies.EnoughMatchesAreAccepted` | crates/face_auth/src/policy.rs:82-100 | enough matches without a break are accepted somewhere |
| `AttemptPolicies.NoAttemptDuringCooldown` | crates/face_auth/src/authenticator.rs:163-179 | on guarded paths with times that never go back, an attempt recorded after a failure that started a cooldown is recorded at the end of that cooldown or later |
| `AttemptPolicies.ThrottleBound` | crates/face_auth/src/policy.rs:70-119 | in any interval without a match, guarded paths record at most L * (T / d + 1) failures |
| `AttemptPolicies.ThrottleBoundIsReached` | crates/face_auth/src/policy.rs:70-119 | for every limit, cooldown and interval some history records that many |
| `AttemptPolicies.CooldownLastsUnlessTheClockOverflows` | crates/face_auth/src/policy.rs:110-116 | a started cooldown ends later than now if and only if its end fits into an i64 |
| `AttemptPolicies.NoThrottleAtTheEndOfTime` | crates/face_auth/src/policy.rs:110-116 | where the end does not fit, guarded paths record any number of failures at one instant, each starting a cooldown |
| `AttemptPolicies.QueryOnlyClears` | crates/face_auth/src/policy.rs:70-80 | asking changes nothing except that a cooldown which is over is cleared |
| `Calibration.LongestConsecutivePassCount` | crates/diagnostics_cli/src/face_calibration.rs:420-432 | the loop returns the length of a longest run of passing scores |
| `Calibration.SequenceAuthWouldPass` | crates/diagnostics_cli/src/face_calibration.rs:235-252 | the report's prediction, in terms of runs of passing scores |
| `Calibration.LongestRunShrinksAsThresholdRises` | crates/diagnostics_cli/src/face_calibration.rs:420-432 | a higher threshold never has a longer run |
| `Calibration.PolicyAcceptsExactlyOnARun` | crates/face_auth/src/policy.rs:82-119 | a fresh policy fed with the scores accepts somewhere if and only if a long enough run of passing scores exists |
| `Calibration.ReportAgreesWithPolicy` | crates/diagnostics_cli/src/face_calibration.rs:235-252 | the prediction is what the policy does if and only if a match is required at all or some score passes |
| `Calibration.ZeroRequiredDisagrees` | crates/diagnostics_cli/src/face_calibration.rs:248-249 | for a required count of zero and any scores that all fail, the report predicts success and the policy, given the same scores, accepts nothing |
| `Calibration.ZeroRequiredExample` | crates/diagnostics_cli/src/face_calibration.rs:248-249 | an input on which prediction and policy disagree: one failing score and a required count of zero |
| `Authenticators.FaceAuthenticator.ValidatePreconditions` | crates/face_auth/src/authenticator.rs:163-179 | which precondition fails, and that only the cooldown check leaves a trace |
| `Authenticators.FaceAuthenticator.JudgeDetectedFace` | crates/face_auth/src/authenticator.rs:199-292 | outcome and policy history after a face was judged, on both paths |
| `Authenticators.FaceAuthenticator.ClassifyIntruder` | crates/face_auth/src/authenticator.rs:225-257 | the flag rewritten step by step is set exactly under the stated conditions on score, trigger, size and quality |
| `Authenticators.FaceAuthenticator.RecordVerdict` | crates/face_auth/src/authenticator.rs:258-273 | matches are always recorded, rejections only on the recorded paths |
| `Authenticators.FaceAuthenticator.AuthenticateFrame` | crates/face_auth/src/authenticator.rs:86-102 | the complete result and history for a frame, detection errors included |
| `Authenticators.FaceAuthenticator.AuthenticateDetectedFace` | crates/face_auth/src/authenticator.rs:122-138 | the complete result and history for a detected face on the recorded path |
| `Authenticators.FaceAuthenticator.AuthenticateWithoutFailureCooldown` | crates/face_auth/src/authenticator.rs:140-157 | a frame that does not match leaves the policy as it was, apart from clearing a cooldown that is over |
| `Authenticators.PreconditionsGuaranteeAMatch` | crates/face_auth/src/authenticator.rs:163-223 | there is a best match to judge if and only if some template is compatible, so the no-match branch is dead for a fixed model |
| `Authenticators.AcceptedAuthenticationIsSound` | crates/face_auth/src/authenticator.rs:199-292 | success names a compatible template that reaches the threshold and that no compatible one outscores, backed by the required matches |
| `Authenticators.WhatEndsACallEarly` | crates/face_auth/src/authenticator.rs:86-179 | why a call is answered without judging a face, the reasons in their order, and what the policy hears of it |
| `Authenticators.MatchesAreTheCloseOnes` | crates/face_auth/src/authenticator.rs:199-292 | a frame that reaches the matcher is recorded as a match if and only if some compatible embedding is within the threshold of it, measured by dot product and lengths; any other one as a failure, or not at all on the scan path |
| `Authenticators.EnrolledFaceIsAMatch` | crates/face_auth/src/authenticator.rs:199-292 | a positive multiple of a compatible non-zero template embedding is recorded as a match, with a threshold of at most one, whatever else is enrolled |
| `Authenticators.IntrudersAreTheDistantOnes` | crates/face_auth/src/authenticator.rs:225-292 | a face is reported as an intruder, unless a cooldown starts, if and only if no compatible embedding is within either threshold and the background monitor did not see it too small or too poor |
| `Authenticators.FourFifthsAreLargeEnough` | crates/face_auth/src/authenticator.rs:231-237 | the area from which on a face is never too small, and below which it surely is |
| `Authenticators.WhichFacesAreTooPoor` | crates/face_auth/src/authenticator.rs:238-255 | the floors, in numbers, that a face must miss to be too poor |
| `TemplateMatching.LastMaximumIsOne` | crates/face_engine/src/template.rs:204-222 | the best match is a maximum by score, the last of several, and exists unless there are no templates |
| `TemplateMatching.BestCompatibleMatchIsSound` | crates/face_engine/src/template.rs:224-246 | the best compatible match is an enrolled compatible template that none outscores and no later one equals; there is one exactly when some template is compatible |
| `TemplateMatching.MatchIgnoresCandidateScale` | crates/face_engine/src/template.rs:189-246 | the length of the candidate embedding plays no part |
| `TemplateMatching.MatchMeasuresTheAngle` | crates/face_engine/src/template.rs:189-202 | score times both lengths is the dot product, and zero for incomparable vectors; accepted if and only if the dot product reaches threshold times lengths |
| `TemplateMatching.BestMatchIsTheClosest` | crates/face_engine/src/template.rs:224-246 | the best match reaches a threshold if and only if some compatible embedding is within the angle it stands for |
| `Embeddings.CosineSimilarity` | crates/face_engine/src/embedding.rs:1-21 | the loop computes the cosine, and its invariant keeps dot * dot at most the product of the squared norms at every iteration |
| `Embeddings.CauchySchwarz` | crates/face_engine/src/embedding.rs:6-15 | dot * dot is at most the product of the squared norms |
| `Embeddings.CosineIsBounded` | crates/face_engine/src/embedding.rs:1-21 | there is a similarity exactly for non-zero vectors of one length, and it lies in -1..1 |
| `Embeddings.CosineIsSymmetric` | crates/face_engine/src/embedding.rs:1-21 | the similarity is symmetric |
| `Embeddings.CosineIgnoresScale` | crates/face_engine/src/embedding.rs:1-21 | positive scaling of either vector changes nothing |
| `Embeddings.CosineWithItself` | crates/face_engine/src/embedding.rs:1-21 | a non-zero vector has similarity 1 with itself, a zero vector none |
| `Embeddings.CosineMeasuresTheAngle` | crates/face_engine/src/embedding.rs:1-21 | the similarity times both lengths is the dot product |
| `Embeddings.MultiplesAreWithinAnyAngle` | crates/face_engine/src/embedding.rs:1-21 | a positive multiple of a non-zero vector has similarity one with it |
| `KeyFiles.WriteKeyFile` | crates/credential_store/src/key_file.rs:44-55 | sequential writes produce the encoding of every blob of 1 to 65536 bytes and refuse every other |
| `KeyFiles.LoadKeyFile` | crates/credential_store/src/key_file.rs:57-86 | stepwise reads with early exits decode the content, or report the right error |
| `KeyFiles.OpenFile.ReadExact` | crates/credential_store/src/key_file.rs:88-97 | reads exactly the bytes asked for, or reports an invalid file |
| `KeyFiles.LittleEndianRoundTrip` | crates/credential_store/src/key_file.rs:66-72 | four bytes denote a length if and only if they are its encoding |
| `KeyFiles.LowestByteFirst` | crates/credential_store/src/key_file.rs:52-72 | the first of the four bytes is the lowest |
| `KeyFiles.KeyFileLayout` | crates/credential_store/src/key_file.rs:44-86 | the content byte by byte: eight letters, version one, the length with its lowest byte first, the blob |
| `KeyFiles.DecodeInvertsEncode` | crates/credential_store/src/key_file.rs:44-86 | a content decodes to a blob if and only if it is the encoding of that blob and the blob has an allowed length |
| `KeyFiles.WrongLength` | crates/credential_store/src/key_file.rs:66-83 | a stored length that is not the number of bytes behind it never decodes |
| `KeyProtocol.FileCredentialStore.LoadOrCreateMasterKey` | crates/credential_store/src/file_store.rs:54-69 | whatever others publish meanwhile, a returned key is the one in the key file, and a key file is never replaced; which error each failure reports; and the call is, step by step, an initialisation of the protocol |
| `KeyProtocol.FileCredentialStore.LoadMasterKey` | crates/credential_store/src/file_store.rs:56-57 | loads and unprotects the key of the key file, with the error of each failure |
| `KeyProtocol.FileCredentialStore.CreateMasterKey` | crates/credential_store/src/file_store.rs:58-67 | generates, protects and publishes a key, with the error of each failure, and loads the published one if another was faster |
| `KeyProtocol.FileCredentialStore.Initialize` | crates/credential_store/src/file_store.rs:72-80 | key and fingerprint are remembered together or not at all |
| `KeyProtocol.KeyFilePlace.SaveIfAbsent` | crates/credential_store/src/key_file.rs:44-55 | publishes a complete key file only where there is none, and says whether it did |
| `KeyProtocol.StepKeepsInvariant` | crates/credential_store/src/file_store.rs:54-69 | one step of one initialiser, proper or faulty, keeps what every initialiser knows true |
| `KeyProtocol.KeyFileNeverChanges` | crates/credential_store/src/key_file.rs:42-55 | in every interleaving the key file never changes after its first publication |
| `KeyProtocol.InitialisersAgree` | crates/credential_store/src/file_store.rs:54-69 | in every interleaving, faults included, all initialisers that succeed hold the key that the key file holds |
| `KeyProtocol.EveryViewIsAnInitialisation` | crates/credential_store/src/file_store.rs:54-69 | what any one initialiser sees of a concurrent run is an initialisation of the kind that the store method performs |
| `KeyProtocol.WithoutFaultsNobodyFails` | crates/credential_store/src/file_store.rs:54-69 | losing the race is no failure: without faults and with a usable or absent file every initialiser that finishes succeeds |
| `KeyProtocol.RunsAreShort` | crates/credential_store/src/file_store.rs:54-69 | in every interleaving, faults included, n initialisers take at most 6 * n steps |
| `KeyProtocol.CompleteRunsSucceed` | crates/credential_store/src/file_store.rs:54-69 | a run without faults that goes on while anybody can step ends with every initialiser finished and holding the key of the key file |
| `Quality.RegionIsTheTouchedPart` | crates/face_auth/src/quality.rs:242-268 | the region is made of exactly the frame's pixels that the padded face box touches, and is missing exactly when there is none |
| `Quality.RegionFitsFrame` | crates/face_auth/src/quality.rs:183-268 | in a valid frame every pixel of the region has a gray value |
| `Quality.GrayscaleCoversFrame` | crates/face_auth/src/quality.rs:270-294 | a valid frame has one gray value per pixel |
| `Quality.ScoreBlurValues` | crates/face_auth/src/quality.rs:123-143 | the whole-frame loop stays in range and computes the region score of the full frame |
| `Quality.ScoreBlurRegion` | crates/face_auth/src/quality.rs:145-164 | the region loop stays in range and computes the variance of the Laplacian over the inner pixels |
| `Quality.ScoreFaceRegionIllumination` | crates/face_auth/src/quality.rs:183-196 | the row loop reads existing values only, with the whole frame as fallback |
| `Quality.VarianceIsZeroExactlyOnConstants` | crates/face_auth/src/quality.rs:296-309 | the variance is never negative and zero exactly for equal values |
| `Quality.BlurIgnoresLighting` | crates/face_auth/src/quality.rs:123-164 | a brightness offset plus a linear gradient changes no sharpness score |
| `Quality.FlatRegionScoresZero` | crates/face_auth/src/quality.rs:145-164 | a region of one gray value scores zero, whatever surrounds it |
| `Quality.WeightedAverageIsMonotone` | crates/face_auth/src/quality.rs:311-322 | raising a value never lowers the average, which stays in 0..1 |
| `Quality.QualityIsInUnitRange` | crates/face_auth/src/quality.rs:28-60 | all scores of a sample lie in 0..1 |
| `Quality.QualityGrowsWithConsistency` | crates/face_auth/src/quality.rs:28-60 | a higher consistency, or one that is not measured, never lowers the quality |
| `Quality.ScoreFaceSample` | crates/face_auth/src/quality.rs:28-60 | the scores that scoring loops and fall-backs add up to |
| `Quality.RejectReasonForQuality` | crates/face_auth/src/quality.rs:62-85 | there is no reject reason if and only if every floor is met |
| `SampleScores.QualityInHundredths` | crates/face_auth/src/quality.rs:28-60 | the quality is 18 hundredths size, 15 sharpness, 17 light, 15 alignment, 20 pose and 15 consistency |
| `SampleScores.FormatDecidesNothing` | crates/face_auth/src/quality.rs:270-294 | the order of the colour bytes changes no score, and a gray picture scores as its copy in colour |
| `SampleScores.GrayInThousandths` | crates/face_auth/src/quality.rs:283-292 | the weights of red, green and blue |
| `SampleScores.RegionSurroundsTheFace` | crates/face_auth/src/quality.rs:242-268 | the scored pixels are those touched by the face box grown by a fifth on every side |
| `SampleScores.WholePictureInstead` | crates/face_auth/src/quality.rs:106-196 | a face box that touches no pixel is scored as one around the whole picture |
| `SampleScores.WhenLightIsPerfect` | crates/face_auth/src/quality.rs:198-214 | the light score is one if and only if the gray values average 128 and none is below 8 or above 247 |
| `SampleScores.LightInParts` | crates/face_auth/src/quality.rs:198-214 | what the mean and what the saturated values contribute, the latter everything from a quarter on |
| `SampleScores.LaplacianIsCurvature` | crates/face_auth/src/quality.rs:133-141 | on a parabola the filter gives minus twice the two curvatures, whatever plane is added |
| `SampleScores.VarianceByMoments` | crates/face_auth/src/quality.rs:296-309 | the variance is the mean of the squares less the square of the mean |
| `SampleScores.SharpnessIsVariance` | crates/face_auth/src/quality.rs:141-142 | sharpness is full if and only if the variance reaches 350, and proportional below |
| `SampleScores.WhichFacesAreTooSmall` | crates/face_auth/src/quality.rs:87-105 | the shares of the picture for which the size score meets the default floor, half, is one and is zero |
| `SampleScores.WhichFacesAreAligned` | crates/face_auth/src/quality.rs:214-222 | the alignment score is zero if and only if a landmark is missing, a fifth for a doubtful face, and else its confidence |
| `SampleScores.WhichReasonIsReported` | crates/face_auth/src/quality.rs:62-85 | each reason is reported if and only if its floor is the first that is missed |
| `SampleScores.WhatTheDefaultPolicyTakes` | crates/face_auth/src/quality.rs:17-26 | which scores the default policy accepts, in numbers |
| `FacePose.WhichPosesFit` | crates/face_pose/src/lib.rs:151-181 | a pose scores above zero if and only if it is near enough on every axis, and one if and only if it is the asked one |
| `FacePose.FitIsTheProductOfMargins` | crates/face_pose/src/lib.rs:151-181 | between, the score is the product of the margins left on the three axes, relative to the asked pose |
| `FacePose.MirrorKeepsTheFit` | crates/face_pose/src/lib.rs:151-181 | a mirrored pose fits the mirrored step equally |
| `LivenessCrop.ScaledFaceCropRect` | crates/face_liveness/src/minifasnet.rs:273-294 | the clamps never panic, and the rectangle has sides of at least one and stays inside the frame |
| `LivenessCrop.CropKeepsTheVisiblePart` | crates/face_liveness/src/minifasnet.rs:273-294 | what of the scaled box lies inside the frame lies inside the crop |
| `LivenessCrop.CropIsTheVisibleBox` | crates/face_liveness/src/minifasnet.rs:273-294 | the rectangle holds every point of the frame in the box scaled about its centre, axis by axis, and no other unless it is cut down to one pixel |
| `LivenessCrop.WhenTheCropIsWhole` | crates/face_liveness/src/minifasnet.rs:273-294 | the rectangle has the size and the centre of the scaled box if and only if that lies in the frame |
| `LivenessCrop.RoundedSpanStaysInside` | crates/face_liveness/src/minifasnet.rs:199-206 | the rounded span stays inside if and only if it does not touch the far edge with a fraction of exactly one half, and is otherwise one pixel too long |
| `LivenessCrop.BuildCropRegion` | crates/face_liveness/src/minifasnet.rs:190-206 | the region of interest of a valid frame on both axes |
| `LivenessCrop.CropCanBeOnePixelTooWide` | crates/face_liveness/src/minifasnet.rs:199-206 | an input whose crop is one pixel too wide |
| `ControlSettings.SettingsSource.UpdateControlSettings` | crates/control_status/src/lib.rs:754-784 | success means that every field of a valid patch is written and the settings were loaded again; any failure leaves each value as it was or as the patch has it; without write errors, exactly which fields are written and which error is reported |
| `ControlSettings.SettingsSource.UpdateSettings` | crates/win_service/src/auth_issuer.rs:221-241 | the update behind the check of its callers: an empty patch or one with an invalid threshold is refused with nothing written; any other one fails only for names that cannot be written or read, never for a value |
| `ControlSettings.GuardedUpdateIsAllOrNothing` | crates/control_backend/src/lib.rs:311-319 | behind that check the settings either stay or become the old ones overlaid with the whole patch |
| `ControlSettings.SettingsSource.WriteModes` | crates/control_status/src/lib.rs:758-766 | the switches and the wake mode, which also sets the older switch |
| `ControlSettings.SettingsSource.WriteThresholds` | crates/control_status/src/lib.rs:767-782 | the thresholds are checked and written one after the other; which are written and which error is reported |
| `ControlSettings.PatchedSettingsAreOverlaid` | crates/control_status/src/lib.rs:718-784 | round trip through printers and parsers: settings loaded after a valid patch are the old ones overlaid with it, thresholds rounded to three decimals |
| `ControlSettings.RefusedPatchIsPartlyWritten` | crates/control_status/src/lib.rs:758-782 | called directly, without the check of its callers: after a refused patch the settings are the old ones if and only if the fields in front of the invalid threshold ask for nothing new |
| `ControlSettings.RefusedPatchExample` | crates/control_status/src/lib.rs:758-773 | a patch that, passed directly, is refused and switches the presence lock on; the check of the callers keeps it out |
| `ControlSettings.RoundedIsNear` | crates/control_status/src/lib.rs:827-838 | a threshold that was written and read back differs by at most 0.0005, and halves go to the even thousandth |
| `ControlSettings.RoundedStaysInRange` | crates/control_status/src/lib.rs:827-838 | printing with three decimals never leaves a range whose bounds have three decimals |
| `ControlSettings.LoadedThresholdsAreInRange` | crates/control_status/src/lib.rs:693-744 | whatever the store holds, loaded thresholds lie in their ranges |
| `ControlSettings.WhatTheOlderSwitchMeans` | crates/control_status/src/lib.rs:686-691 | the older switch counts if and only if no wake mode can be read, and stands for triggered recognition |
| `ControlSettings.OlderReadersSeeTriggered` | crates/control_status/src/lib.rs:851-864 | writing either wake mode switches the older switch on |
| `ControlSettings.WhichWordsAreRead` | crates/control_status/src/lib.rs:652-684 | which words switch on and off and which name a mode, with blanks around them |
| `ControlSettings.OnlyTheOlderSwitchMayBeUnreadable` | crates/control_status/src/lib.rs:718-744 | loading fails if and only if another value cannot be read |
| `ControlSettings.WhatAnEmptyStoreMeans` | crates/control_status/src/lib.rs:718-744 | an empty store loads as both switches off, no wake mode, 0.65 and 0.30 |

## Left out

- f32 rounding, NaN and infinities: scores are real numbers; a square root is a parameter characterised by its square.
- Camera, OpenCV, ONNX Runtime, DPAPI, random numbers, clocks, processes and pipes: their answers are parameters; frames of the camera are valid ones.
- `MediaPipe` and landmark pose estimation: the pose of a face is an answer of its provider.
- Status files, preview events, debug images, sleeps and console output of the guided run: a failure to write one ends the real run with that error at once.
- Writing the template set, the report and the partial reasons as JSON, and reading settings from the command line.
- Model loading and the exchange of the recognition model during an enrolment: an enrolment has one model throughout.
- Hash map order: loops over maps visit the keys in any order, and no result depends on it.
- Poisoned locks, and calls of the session runtime that run in parallel: each call holds the lock for its whole length.
- Preview images and applying templates through the service pipe: only their outcome appears.
- Temporary files and flushing in the atomic publication of the key file: publication is one step that may report an error afterwards.
- Sums that exceed 64 bits are taken to wrap, as an optimised build computes them; a checked build would stop instead.
- The product of width, height and channels in frame validation is not bounded by the size of a machine word.
- The parser of floating point numbers, of which only the reading of numbers with three decimals matters; and the other control panel status queries.
- The percentile, average and ratio figures of the calibration report, and its list of thresholds.
- The tables that turn errors and states into protocol codes, the user interface, the setup and the service host.
- Upserts of users and credentials in the file store, which only fill maps.
