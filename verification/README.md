# OpenEBS upgrade machinery: a verified model

This project models how OpenEBS upgrades itself and proves what holds of it over all inputs,
all interleavings, all failures and all restarts. `dafny verify dfyconfig.toml` checks it.

**The upgrade job** (`openebs-upgrade/`) runs as a Kubernetes Job that repeats a failed
attempt, and each attempt re-reads a release that an earlier one may have changed.
`UpgradePlan` states one attempt as a plan of steps; the environment chooses the fate of each
step (success, failure or sudden death, each with no, partial or full effect on the cluster).
`UpgradeJob` is the job in the program's own nesting, proved to do what the plan says.
`AttemptTrace` proves the order of commands and events, `Restarts` what whole runs do to the
release, `RunValues` what they do to the etcd flag and the CRD toggles, and `RebuildGuard` which
values defeat the partial-rebuild guard. `SemVer` holds
version precedence, `HelmValues` the value trees, `CrdToggles` the override file.

**The plugin** (`plugin/`) prepares and starts the job: `Preflight` (checks over paginated
listings), `SetFile` (the `--set-file` pipeline), `Resources` (five concurrent idempotent
creates and deletes as an interleaving of task steps), `ApplyUpgrade` (stale events and the
six polls), `ReleaseName` and `Listing`.

**Two more**: `RegexOr`, the chart template that compiles a label disjunction into one regex,
and `Sourcer`, the Nix source whitelist. `Text` and `Wrappers` are shared helpers.

Findings that the proofs make exact:

- An upgrade from v3 interrupted between its two helm upgrades leaves
  `mayastor.etcd.preUpgradeJob.enabled` off (`RunValues.InterruptedStaysOff` names the attempt).
  With a target of 4.0.0 or later no retry switches it on again by itself: only a retry that
  takes effect and carries a `true` of the user's own `--set` does
  (`RunValues.EtcdFlagOverWholeRun`, `RunValues.FlagRestoredIff`). Below 4.0.0 the retry upgrades
  in two steps again and repairs it (`RunValues.LastDecidesBelowFourDotO`).
- The partial-rebuild guard runs after the release has moved, so every later attempt reads the
  target as its source, whether the first was rejected, failed or died. With the target outside
  [3.7.0, 3.10.0] none is ever rejected, and the data plane can be restarted with partial
  rebuild on; with the target inside it never is, whatever fails (`Restarts.GuardAcrossRestart`;
  `Restarts.GuardProtectsRunsIff` and `RebuildGuard.GuardProtectsForReadersIff` say when a whole
  run is protected).
- A helm upgrade that stops half-way leaves a release that no retry touches again
  (`Restarts.HalfDoneUpgradeIsFinal`).
- A ConfigMap left over from an earlier try is kept, so a new job may be paired with old files
  (`Resources.ConfigMapIsTheJobsOwn` gives the condition).
- The label regex is exact iff no configured label value contains a dot
  (`RegexOr.RegexOrIsExactIff`).
- The help text of `--set-file` (`plugin/src/cli_utils/upgrade/cli.rs:67-70`) promises
  `key1=path1,key2=path2`, but the code rejects every argument without exactly one `=`; the
  model follows the code (`SetFile.CommaListIsRejected`).
- The plugin waits for a "Validation Failed" event to report it and to delete the upgrade's
  resources. The job never publishes one, and a job rejected in validation publishes nothing at
  all, so six polls pass and the plugin returns success (`ApplyUpgrade.JobIsNeverDeleted`,
  `ApplyUpgrade.FailedValidationIsSilent`).
- The plugin can start a job that the job's own downgrade gate refuses. With Mayastor disabled
  it checks no path at all, whatever its own version (`Preflight.DisabledMayastorSkipsPathCheck`);
  with Mayastor enabled it does so if its own version does not parse or is above the chart's
  (`Preflight.PluginCoversJobIff` is exact).
- Objects of different releases keep apart, unless the version tag of one plugin ends in a
  component's name and the other plugin's tag (`Resources.ReleasesCollideIff` is exact).

Modelling decisions: a helm upgrade records the chart version and the merged user values in
one step, with effect nothing, partial (recorded but not "deployed") or full. The values of
one command line are composed first (`-f`, then `--set`, then `--set-file`, the last winning)
and then laid over the previous user values. Kubernetes, helm and REST calls are the fates of
steps or the answers given as parameters; wall-clock waiting is not represented.

## Model

| member | source | states |
|---|---|---|
| SemVer.PrecedenceIsStrictTotalOrder | openebs-upgrade/src/helm/upgrade/config.rs:55-66 | the comparison behind every gate is irreflexive, transitive and total on versions with pre-release lists |
| SemVer.SpecificationExample | openebs-upgrade/src/helm/upgrade/config.rs:55-66 | it orders the example chains of section 11 of SemVer 2.0.0 |
| SemVer.BandsPartitionVersions | openebs-upgrade/src/constants.rs:7-18 | 3.0.0, 3.4.1, 3.7.0, 3.10.0, 4.0.0 and 4.3.0 increase strictly and cut all versions into seven bands |
| SemVer.BandMonotone | openebs-upgrade/src/constants.rs:7-18 | a later version never falls back to a lower band |
| HelmValues.Absorption | openebs-upgrade/src/helm/upgrade/config.rs:81-96 | under reuse of user values, an overlay absorbs any earlier overlay of the same shape, whatever lies beneath |
| HelmValues.UntouchedKept | openebs-upgrade/src/helm/upgrade/config.rs:81-96 | a value that an overlay does not reach is kept |
| HelmValues.LeafWins | openebs-upgrade/src/helm/upgrade/config.rs:81-96 | a value given on the command line wins over the previous one |
| HelmValues.LookupThroughMerge | openebs-upgrade/src/helm/upgrade/config.rs:81-96 | any lookup after an overlay follows from the lookup before: kept if the overlay does not reach it, else replaced, tables being merged |
| HelmValues.BoolSurvivesTexts | openebs-upgrade/src/helm/upgrade/config.rs:85-87 | a boolean value survives a list of `--set-file` assignments iff none of them is on, above or below its path |
| CrdToggles.CrdNamesToHelmToggles | openebs-upgrade/src/helm/values.rs:60-95 | the four CRD sets are distinct keys, each mapped to its own toggle |
| CrdToggles.OrderIrrelevant | openebs-upgrade/src/helm/values.rs:46-55 | every drain order of the same CRD sets writes the same file |
| CrdToggles.SafeCrdInstall | openebs-upgrade/src/helm/values.rs:35-58 | the drain, in any order, produces the one toggle file for the installed CRDs |
| CrdToggles.TogglesFollowInstalledCrds | openebs-upgrade/src/helm/values.rs:46-55 | a toggle is false in the file iff at least one CRD of its set is installed, and absent otherwise |
| CrdToggles.ValuesFileStaysOnToggles | openebs-upgrade/src/helm/values.rs:60-95 | the values file reaches no path outside the four toggles |
| CrdToggles.GenerateValuesFile | openebs-upgrade/src/helm/values.rs:16-33 | the file holds toggles iff the upgrade crosses from below 4.0.0 to 4.0.0 or later |
| UpgradePlan.GatesAreBands | openebs-upgrade/src/constants.rs:7-18 | each gate is open on exactly its bands of versions, the release check also on the chart "openebs" and a deployed status, 3.10.0 itself still inside the rebuild extents |
| UpgradePlan.FlagArgs | openebs-upgrade/src/helm/upgrade/upgrader.rs:85-109 | the appended flag is merged after all user `--set` values and before all `--set-file` values |
| UpgradePlan.TwoStepRefinesOneStep | openebs-upgrade/src/helm/upgrade/upgrader.rs:81-111 | the two-step upgrade records the same user and effective values as one upgrade with the flag on, for any previous values and arguments |
| UpgradePlan.UserWinsOverDefaults | openebs-upgrade/src/helm/upgrade/config.rs:81-96 | of the effective values, the user's win over the chart's defaults, and defaults that they do not reach stay |
| UpgradePlan.SettledIsOneUpgrade | openebs-upgrade/src/helm/upgrade/upgrader.rs:74-120 | on either path, an undisturbed attempt settles as if it had upgraded exactly once |
| UpgradeJob.Job.ValidateAndBuildHelmUpgrader | openebs-upgrade/src/helm/upgrade/config.rs:45-157 | reads, gates in order, values file and argument list; the release is left alone and the first failing step is the result |
| UpgradeJob.Job.RunHelmUpgrade | openebs-upgrade/src/helm/upgrade/upgrader.rs:54-127 | Loki gate, etcd pods, one or two upgrades, then the values: the helm part of the plan, ending in the settled release |
| UpgradeJob.Job.PublishFatalFor | openebs-upgrade/src/helm/upgrade.rs:35-45 | a fatal event is published for the failed step and never replaces the error by a success |
| UpgradeJob.Job.MayastorDataPlaneUpgrade | openebs-upgrade/src/helm/upgrade.rs:83-151 | the data-plane part of the plan, with a fatal event only for a failed run of the upgrader |
| UpgradeJob.Job.Upgrade | openebs-upgrade/src/helm/upgrade.rs:23-81 | the whole upgrade equals the plan cut at its first failing step plus that step's fatal event |
| UpgradeJob.Job.ValidateAndUpgrade | openebs-upgrade/src/lib.rs:21-37 | one attempt, from any release and with any fates, equals the reference attempt |
| AttemptTrace.EntriesFollowPlan | openebs-upgrade/src/helm/upgrade.rs:35-80 | a trace is a prefix of the plan in which all but the last step succeeded |
| AttemptTrace.PlanRanked | openebs-upgrade/src/helm/upgrade.rs:35-80 | the steps of an attempt come in protocol order and none twice |
| AttemptTrace.PlanIsExactlyTheWantedSteps | openebs-upgrade/src/helm/upgrade/upgrader.rs:56-120 | a step is in the plan iff its own condition on source, target, pods, values and options asks for it |
| AttemptTrace.GateByNumbers | openebs-upgrade/src/helm/upgrade/upgrader.rs:56-120 | the same with every gate in plain version numbers, chart name, status, pods and options |
| AttemptTrace.TraceInOrder | openebs-upgrade/src/helm/upgrade.rs:35-150 | nothing is touched before a successful dry run and the start event, no helm upgrade comes before the Loki delete that its gate asks for, completion events follow their starts and their work, at most one fatal event and then nothing |
| AttemptTrace.OutcomeIsPublished | openebs-upgrade/src/helm/upgrade.rs:35-80 | with a recorder, Ok is returned iff `Success` was published last; errors with a fatal event end with it, others publish none |
| AttemptTrace.FatalEventsByName | openebs-upgrade/src/helm/upgrade.rs:35-63 | a failed dry run, helm part or data-plane run ends with its own fatal event by name, any other error with none |
| AttemptTrace.LastFateIsReturned | openebs-upgrade/src/helm/upgrade.rs:35-80 | the result is the fate of the last command: Ok, its very error even if a fatal event follows or cannot be published, or no return |
| Restarts.ReleaseAfter | openebs-upgrade/src/helm/upgrade/upgrader.rs:81-120 | the release after an attempt is fixed by how far its one or two helm upgrades got |
| Restarts.NextRelease | openebs-upgrade/src/helm/upgrade/config.rs:53-66 | an attempt leaves the release as it was, or has accepted it and moved it to the target |
| Restarts.ChecksInAnyOrder | openebs-upgrade/src/helm/upgrade/config.rs:103-115 | in whatever order the steps of the three concurrent input checks come, the cluster and the success of the attempt are the same, and so is the outcome unless a check fails |
| Restarts.VersionNeverDecreases | openebs-upgrade/src/helm/upgrade/config.rs:58-66 | without the skip flag no run lowers the version, and a changed release is at 3.0.0 or later |
| Restarts.FourDotOGatesAreBehind | openebs-upgrade/src/helm/values.rs:26-30 | once at 4.0.0, no attempt of a run looks at CRDs or etcd pods, writes toggles or upgrades in two steps |
| Restarts.LokiGateIsContiguous | openebs-upgrade/src/helm/upgrade/upgrader.rs:56-60 | the attempts whose gate enables the delete of the Loki StatefulSet form one contiguous stretch of a run, and all of them plan it |
| Restarts.UnacceptedReleaseIsStuck | openebs-upgrade/src/helm/upgrade/config.rs:167-190 | a release that fails the check is never changed, and no attempt on it touches anything or returns Ok |
| Restarts.HalfDoneUpgradeIsFinal | openebs-upgrade/src/helm/upgrade/config.rs:182-187 | after a half-done helm upgrade the release shows the target and no retry changes it |
| Restarts.OkMeansDone | openebs-upgrade/src/helm/upgrade.rs:35-80 | Ok means that exactly the wanted steps were done, the release is settled at the target and Loki is gone iff gated |
| Restarts.DataPlaneIsGuarded | openebs-upgrade/src/helm/upgrade.rs:101-101 | the data plane is only touched if wanted and the source is outside the extents or partial rebuild is off |
| Restarts.UndisturbedOutcome | openebs-upgrade/src/helm/upgrade.rs:83-151 | with valid inputs and no disturbance an attempt returns Ok unless the guard objects, which it does after the release has settled |
| Restarts.UndisturbedVerdict | openebs-upgrade/src/helm/upgrade/config.rs:45-190 | with every command succeeding, the verdict in plain numbers: the first objection to helm version, release, chart directory or path with nothing touched, else the release is settled and the result is the guard's rejection or Ok |
| Restarts.RejectedAttemptHasMoved | openebs-upgrade/src/helm/upgrade.rs:48-71 | an attempt that the guard rejects has upgraded fully and settled the release at the target before, whatever else failed |
| Restarts.GuardAtTarget | openebs-upgrade/src/helm/upgrade.rs:153-169 | for any attempts on a release that shows their target and any failures: a rejection means the target is inside the extents, a restart of the data plane with partial rebuild on means it is outside, and an undisturbed attempt that wants the guard does the one or the other |
| Restarts.GuardAcrossRestart | openebs-upgrade/src/helm/upgrade.rs:153-169 | the same for all attempts after one whose helm upgrade took any effect, however that one ended |
| Restarts.GuardProtectsRunsIff | openebs-upgrade/src/helm/upgrade.rs:153-169 | from a source inside the extents, and over all values and readers of values, no run with the same arguments ever restarts the data plane with partial rebuild on iff the target is inside too, or the data plane is left out, or the release, the path or the target is refused |
| RebuildGuard.RunMoves | openebs-upgrade/src/helm/upgrade/upgrader.rs:74-120 | a run with one set of arguments leaves the release unsettled, or with the values of a series of legal upgrades |
| RebuildGuard.MovesRun | openebs-upgrade/src/helm/upgrade/upgrader.rs:74-120 | and every such series is what some run leaves |
| RebuildGuard.GuardProtectsForReadersIff | openebs-upgrade/src/helm/upgrade.rs:153-169 | for readers fixed over the run, protection holds iff the target is inside, or everything is refused, or no series of a first upgrade and retries leaves values with Mayastor and partial rebuild on |
| RebuildGuard.OneRetryDecides | openebs-upgrade/src/helm/upgrade/config.rs:81-96 | with a target of 4.0.0 or later that condition is decided by the values of the first upgrade and one retry |
| RunValues.ExtraArgsOverlays | openebs-upgrade/src/helm/upgrade/config.rs:81-96 | the argument list amounts to the values file, the user's `--set` and the user's `--set-file`, each if given |
| RunValues.PlainKeepsFlag | openebs-upgrade/src/helm/upgrade/upgrader.rs:112-120 | a single upgrade keeps the etcd flag if the user's arguments do not reach it |
| RunValues.RecordedAt | openebs-upgrade/src/helm/upgrade/config.rs:81-96 | for any previous values and any user arguments, every value outside the values file is what the user's and the flag's options make of the previous one |
| RunValues.SetValueIsRecorded | openebs-upgrade/src/helm/upgrade/config.rs:82-84 | every value of the user's `--set` is recorded at its own path unless a later `--set`, a `--set-file` or the flag of a two-step upgrade meets it |
| RunValues.SetFileValueIsRecorded | openebs-upgrade/src/helm/upgrade/config.rs:85-87 | every content of the user's `--set-file` is recorded at its own path unless a later one meets it |
| RunValues.UnmentionedValueIsKept | openebs-upgrade/src/helm/upgrade/config.rs:93-93 | a value that no argument, flag or toggle meets is kept from the release |
| RunValues.RetriesLayUserOptions | openebs-upgrade/src/helm/upgrade/upgrader.rs:112-120 | from 4.0.0 on, any retries with the same arguments lay exactly the user's options over each value, iff one of them takes effect, and the target stays |
| RunValues.FlagOnCommandLine | openebs-upgrade/src/helm/upgrade/upgrader.rs:85-109 | the command line carries the flag iff no user `--set-file` reaches it; a user `--set` cannot interfere |
| RunValues.FlagAfter | openebs-upgrade/src/helm/upgrade/upgrader.rs:74-120 | the flag after one attempt, for any user arguments: each upgrade that took effect has laid its options over it |
| RunValues.FlagLeftByJob | openebs-upgrade/src/helm/upgrade/upgrader.rs:81-120 | unless a `--set-file` reaches the flag, a two-step upgrade leaves it on iff its second half took effect; a single upgrade leaves what the user's options make of it |
| RunValues.FlagRestoredIff | openebs-upgrade/src/helm/upgrade/upgrader.rs:74-120 | an attempt switches on a flag that is not on iff its second upgrade takes effect and no `--set-file` reaches the flag, or its only upgrade takes effect and the user's own options hold `true` there |
| RunValues.FlagFixedFromFourDotO | openebs-upgrade/src/helm/upgrade/upgrader.rs:74-120 | from 4.0.0 on, retries with arguments that leave the flag alone never change it |
| RunValues.FlagOverWholeRun | openebs-upgrade/src/helm/upgrade/upgrader.rs:62-120 | over a run to 4.0.0 or later with any arguments, the first attempt that takes effect moves the release for good and leaves the flag, and retries lay only the user's options over it |
| RunValues.EtcdFlagOverWholeRun | openebs-upgrade/src/helm/upgrade/upgrader.rs:62-120 | exactly when such a run ends with the flag on: after a two-step upgrade, what the user's options say if a retry took effect and they say anything, else whether the second upgrade took effect |
| RunValues.InterruptedStaysOff | openebs-upgrade/src/helm/upgrade/upgrader.rs:81-111 | the attempt that dies between its two upgrades leaves the flag off, and to 4.0.0 or later no retries end with it on unless the user's own options say so |
| RunValues.LastEffectLeavesFlag | openebs-upgrade/src/helm/upgrade/upgrader.rs:62-120 | for any target, a run ends with the flag that its last effective attempt left |
| RunValues.LastDecidesBelowFourDotO | openebs-upgrade/src/helm/upgrade/upgrader.rs:74-111 | below 4.0.0 on both ends the last effective attempt without etcd pods decides: on iff its second upgrade took effect, so an undisturbed retry repairs the flag |
| RunValues.UndisturbedUpgradeTurnsFlagOn | openebs-upgrade/src/helm/upgrade/upgrader.rs:67-73 | an undisturbed attempt from below 4.0.0 without etcd pods ends at the target with `mayastor.etcd.preUpgradeJob.enabled` true, whatever the user's `--set` says, if no `--set-file` meets it |
| RunValues.ToggleAfterUpgrade | openebs-upgrade/src/helm/values.rs:26-30 | a toggle after any upgrade with any arguments is off if the upgrade crosses 4.0.0, a CRD of its set is installed and the user's options leave it alone, and otherwise what those options make of it |
| RunValues.TogglesByName | openebs-upgrade/src/helm/values.rs:60-95 | each of the four toggles by its literal path and CRD names: off iff the upgrade goes from below 4.0.0 to 4.0.0 or later with one of them installed, else as before, if the user's arguments leave it alone |
| RunValues.TogglesSurviveRetries | openebs-upgrade/src/helm/upgrade/config.rs:68-96 | toggles that the user's arguments leave alone survive all later attempts although their values files are empty |
| RunValues.TogglesOverWholeRun | openebs-upgrade/src/helm/values.rs:46-55 | the attempt that crosses 4.0.0 decides each toggle and retries lay only the user's options over it; if those leave it alone, it is off for good iff a CRD of its set was installed |
| RunValues.RepeatedUpgradeKeepsValues | openebs-upgrade/src/helm/upgrade/config.rs:81-96 | from 4.0.0 on, repeating an upgrade with the same arguments records the same values |
| Text.SplitJoinRoundTrip | plugin/src/cli_utils/upgrade/k8s/resources.rs:323-323 | splitting a comma-joined list gives back its parts iff no part contains a comma |
| Text.DecimalByDigits | plugin/src/cli_utils/upgrade/k8s/resources.rs:287-287 | the keys are decimals, digit by digit |
| SetFile.ConfigMapData | plugin/src/cli_utils/upgrade/k8s/resources.rs:272-295 | succeeds iff every argument has exactly one `=` and a readable file; keys are the distinct decimals 1..n with each argument's content, paths map to their last number; a failure blames the first bad argument |
| SetFile.JobSetFileArgs | plugin/src/cli_utils/upgrade/k8s/resources.rs:298-324 | succeeds iff the list is empty or all arguments map; the result joins one rewritten entry per argument in order |
| SetFile.RewrittenReadsBack | plugin/src/cli_utils/upgrade/k8s/resources.rs:306-318 | a rewritten entry splits into the argument's own key and a mounted key holding the content of its own file, even for repeated paths |
| SetFile.SetFilePipeline | plugin/src/cli_utils/upgrade/mod.rs:619-624 | whenever the ConfigMap data can be built so can the job argument, and helm reads the very entries from it iff no key contains a comma |
| SetFile.ArgumentInParts | plugin/src/cli_utils/upgrade/k8s/resources.rs:279-284 | the well-formed arguments are exactly `key=path` with one `=`, split into that key and that path |
| SetFile.PipelineInParts | plugin/src/cli_utils/upgrade/k8s/resources.rs:306-323 | for arguments `key=path` the job gets `key=/upgrade-config-map/j` each, in order, `j` holding the content of the argument's own file, and the i-th content lies under the i-th decimal |
| SetFile.DataCounts | plugin/src/cli_utils/upgrade/k8s/resources.rs:272-295 | the ConfigMap has as many entries as there are arguments |
| SetFile.LastIndexWins | plugin/src/cli_utils/upgrade/k8s/resources.rs:285-293 | a path named more than once maps to the number of the last argument naming it |
| SetFile.CommaListIsRejected | plugin/src/cli_utils/upgrade/k8s/resources.rs:279-282 | an argument with two `=` is always rejected |
| Resources.ReferencesName | plugin/src/cli_utils/upgrade/k8s/resources.rs:232-267 | every reference among the five objects, and every name spelled out for deletion, is the name of a created object |
| Resources.NamesSpelledOut | plugin/src/cli_utils/upgrade/k8s/resources.rs:232-267 | the five names, namespaces and contents spelled out from release, namespace and version tag |
| Resources.ReleasesShareNothing | plugin/src/cli_utils/upgrade/k8s/mod.rs:45-50 | requests for different releases share no object, whatever their namespaces, if neither suffix makes a kind's names the ends of the other's; equal suffixes never do |
| Resources.ReleasesCollideIff | plugin/src/cli_utils/upgrade/k8s/resources.rs:232-267 | that condition is exact: otherwise two releases of one namespace share an object of the kind |
| Resources.ApiServer.IdempotentCreate | plugin/src/cli_utils/upgrade/mod.rs:756-789 | an existing object is left alone and counts as created |
| Resources.ApiServer.IdempotentDelete | plugin/src/cli_utils/upgrade/mod.rs:792-813 | an absent object counts as deleted |
| Resources.StepKeepsInvariant | plugin/src/cli_utils/upgrade/mod.rs:627-669 | every task or join step keeps the objects equal to the closed form of the calls carried out so far |
| Resources.ScheduleIndependent | plugin/src/cli_utils/upgrade/mod.rs:627-669 | the final objects depend only on which calls were carried out, not on the interleaving |
| Resources.CreateIsSafe | plugin/src/cli_utils/upgrade/mod.rs:590-672 | in every schedule nothing existing changes and only the five appear; Ok implies that all five exist and all references resolve |
| Resources.RetryConverges | plugin/src/cli_utils/upgrade/mod.rs:590-672 | a retry that returns Ok after any partial failure leaves what one clean creation leaves |
| Resources.DeleteRemovesExactlyTheFive | plugin/src/cli_utils/upgrade/mod.rs:675-753 | an Ok deletion removes exactly the five names from any state and undoes a creation that found none of them |
| Resources.NoLossNoError | plugin/src/cli_utils/upgrade/mod.rs:580-587 | if no call is lost, the join never returns an error, and exactly the tasks that were scheduled are done |
| Resources.AllAnsweredReturnsOk | plugin/src/cli_utils/upgrade/mod.rs:627-669 | once all five tasks have run without a loss, in any order, the next join returns Ok and nothing changes any more |
| Resources.LostCallIsReported | plugin/src/cli_utils/upgrade/mod.rs:627-669 | if a kind's first call is lost, every later join leaves an error, whatever comes in between and after |
| Resources.JoinVerdict | plugin/src/cli_utils/upgrade/mod.rs:627-669 | once every kind has run, the next join settles the result for good: Ok iff the first call of every kind was answered |
| Resources.ConfigMapIsTheJobsOwn | plugin/src/cli_utils/upgrade/mod.rs:778-786 | after Ok the ConfigMap holds the data of this request iff none was left over or the leftover has the same data |
| Resources.JobFindsItsFiles | plugin/src/cli_utils/upgrade/mod.rs:619-624 | without leftovers the created job finds each file under the key its own argument names |
| Resources.RunTasks | plugin/src/cli_utils/upgrade/mod.rs:627-669 | running a schedule of the spawned tasks against the server equals the transition system |
| ApplyUpgrade.LatestIsMaximal | plugin/src/cli_utils/upgrade/mod.rs:269-272 | the chosen event is an upgrade event of maximal time, and is missing only if there is none |
| ApplyUpgrade.LatestByTime | plugin/src/cli_utils/upgrade/mod.rs:259-273 | on the raw list and times: an upgrade event of the job of the greatest time, the last one of that time, and one iff there is any |
| ApplyUpgrade.DeletedForGood | plugin/src/cli_utils/upgrade/k8s/mod.rs:53-73 | after the deletion no stale event of the job is left |
| ApplyUpgrade.WithoutJobMembers | plugin/src/cli_utils/upgrade/k8s/mod.rs:53-73 | the deletion removes exactly the events of the job |
| ApplyUpgrade.GetLatestUpgradeEvent | plugin/src/cli_utils/upgrade/mod.rs:259-273 | succeeds iff the listing works and holds an "OpenebsUpgrade" event of the job, with the last one of the greatest time |
| ApplyUpgrade.HandleUpgradeEvent | plugin/src/cli_utils/upgrade/mod.rs:285-308 | resources are deleted iff the event is a failed validation with a parsable note, and are untouched otherwise |
| ApplyUpgrade.PrepareRequest | plugin/src/cli_utils/upgrade/mod.rs:619-625 | a request is prepared iff every set-file argument is usable and the job image is found, and it carries the arguments |
| ApplyUpgrade.ApplyUpgrade | plugin/src/cli_utils/upgrade/mod.rs:537-577 | nothing is created unless stale events can be deleted and the request prepared; at most six polls and one event: the latest at the first poll that finds any, with the final objects and the result for every outcome |
| ApplyUpgrade.HandledIsNews | plugin/src/cli_utils/upgrade/mod.rs:545-549 | the handled event belongs to the job and was published after the stale ones were deleted |
| ApplyUpgrade.FindsByName | plugin/src/cli_utils/upgrade/mod.rs:537-559 | a poll finds something iff it can list and an upgrade event of `release-upgrade-version` has arrived |
| ApplyUpgrade.HandledIsLatest | plugin/src/cli_utils/upgrade/mod.rs:259-273 | the handled event has the greatest time among the upgrade events of that name that arrived |
| ApplyUpgrade.JobIsNeverDeleted | plugin/src/cli_utils/upgrade/mod.rs:285-308 | when only the job publishes upgrade events, the handled event is never a failed validation, so nothing is deleted |
| ApplyUpgrade.FailedValidationIsSilent | openebs-upgrade/src/helm/upgrade.rs:35-50 | an attempt that ends before its dry run publishes no event |
| ApplyUpgrade.RejectedBeforeDryRun | openebs-upgrade/src/lib.rs:21-37 | every attempt that fails in validation, by rejection or by a failed read, ends before its dry run |
| Preflight.EnabledByFirstLevelThatSpeaks | plugin/src/cli_utils/upgrade/helm_values.rs:89-126 | Mayastor is enabled iff the first of the four levels that says anything says true |
| Preflight.EnabledByKey | plugin/src/cli_utils/upgrade/helm_values.rs:89-126 | the four levels by key: the user's engine key, the user's v3 key, then the chart's two |
| Preflight.OwnVersionByTag | plugin/src/cli_utils/upgrade/mod.rs:360-375 | the own version is what the parser makes of the tag, one leading `v` left out, and none without a tag |
| Preflight.UpgradePathValidation | plugin/src/cli_utils/upgrade/mod.rs:350-401 | accepts exactly the valid paths: a tag without "develop" in it, no stable to unstable unless allowed, never lower than the source |
| Preflight.PluginAndJobAgree | plugin/src/cli_utils/upgrade/mod.rs:390-398 | with a parsed own version equal to the chart's, what the plugin's path validation lets through the job's downgrade gate accepts too |
| Preflight.PluginCoversJobIff | plugin/src/cli_utils/upgrade/mod.rs:493-534 | with Mayastor enabled, the plugin's whole check accepts only what the job's gate accepts iff the gate is skipped, or the plugin is no release, or it knows its own version and the chart is no older |
| Preflight.DisabledMayastorSkipsPathCheck | plugin/src/cli_utils/upgrade/mod.rs:502-516 | with Mayastor disabled a release above the target is accepted and the job refuses it; over all clusters the plugin covers the job iff the gate is skipped |
| Preflight.RebuildInProgress | plugin/src/cli_utils/upgrade/mod.rs:321-347 | for any pages: true iff a readable volume has a rebuilding child, an API error only if it comes first; terminates |
| Preflight.ReadableByPage | plugin/src/cli_utils/upgrade/mod.rs:321-347 | a volume is seen iff it lies on a page with no failing page up to it |
| Preflight.GetPvcFromUuid | plugin/src/cli_utils/upgrade/mod.rs:403-427 | the names, in order, of exactly the named claims behind the given volumes |
| Preflight.NamesInOrder | plugin/src/cli_utils/upgrade/mod.rs:403-427 | names come in listing order |
| Preflight.SingleVolumeReplicaValidation | plugin/src/cli_utils/upgrade/mod.rs:429-464 | for any pages: passes iff all are readable and no volume has exactly one replica |
| Preflight.AlreadyCordonedNodesValidation | plugin/src/cli_utils/upgrade/mod.rs:467-490 | passes iff the nodes are listed, every one has a spec and none is cordoned |
| Preflight.UpgradePreflightCheck | plugin/src/cli_utils/upgrade/mod.rs:493-534 | passes iff Mayastor is disabled or every unskipped condition holds on the flat lists |
| Preflight.PagesAndSkipsDoNotHurt | plugin/src/cli_utils/upgrade/mod.rs:515-530 | neither another split into pages nor more skip flags turn acceptance into rejection |
| RegexOr.RegexOr | charts/values.yaml:380-397 | the nested loops produce one branch per label, joined by bars, and the anchored result keeps a target iff some label equals the value configured under its own key, up to dots, and exactly so without dots |
| RegexOr.RunStopsAtSeparator | charts/values.yaml:387-394 | a `.*` never reaches across a separator, because the rest of the branch needs all that follow |
| RegexOr.BranchMatches | charts/values.yaml:385-395 | a branch matches the joined values iff its label has its configured value up to dots |
| RegexOr.RegexOrKeeps | charts/values.yaml:288-301 | the anchored rule keeps a target iff some label equals its configured value up to dots, the outer anchors being idle |
| RegexOr.RegexOrIsExactIff | charts/values.yaml:288-301 | over legal label values, the rule decides the documented disjunction for every target iff no configured value contains a dot |
| RegexOr.PlainMatchesItself | charts/values.yaml:288-301 | the engine: plain text matches itself only |
| RegexOr.DotsMatchAnything | charts/values.yaml:288-301 | the engine: `.` takes one character, `.*` any run |
| RegexOr.BarSeparates | charts/values.yaml:288-301 | the engine: a bar separates alternatives |
| Listing.ListAll | plugin/src/cli_utils/localpv/lvm/volume/mod.rs:65-89 | for any page size the loop returns the flat list, or fails iff a page fails |
| Listing.FlatUpTo | plugin/src/cli_utils/localpv/lvm/volume/mod.rs:65-89 | the flat list grows by the items of each page, in order, and ends at the first failure |
| Listing.DumpDynamicResource | plugin/src/cli_utils/supportability/dump.rs:13-73 | the dump keeps exactly the pages before the first failure and writes a file iff they hold anything |
| Listing.GetLvmVolOutput | plugin/src/cli_utils/localpv/lvm/volume/mod.rs:92-115 | the order-preserving join of volumes with the first PV of equal name; fails iff the PV listing fails or a joined pair does not convert |
| Listing.JoinByName | plugin/src/cli_utils/localpv/lvm/volume/mod.rs:92-115 | the join in terms of names: a row pairs a volume with the first PV of its name, in volume order, none left out |
| Listing.ConvertsByName | plugin/src/cli_utils/localpv/lvm/volume/mod.rs:92-115 | the pair that must convert is a volume and the first PV of its name |
| ReleaseName.ScanReleases | plugin/src/cli_utils/upgrade/k8s/mod.rs:119-140 | returns n iff every entry decodes and exactly one is the umbrella chart, with label n |
| ReleaseName.IdentifiesByEntry | plugin/src/cli_utils/upgrade/k8s/mod.rs:119-140 | that is: all entries decode and one alone has the chart "openebs", labelled n |
| ReleaseName.HelmReleaseName | plugin/src/cli_utils/upgrade/k8s/mod.rs:108-177 | Secrets for the drivers "", "secret" and "secrets", ConfigMaps for "configmap" and "configmaps", and nothing for any other |
| ReleaseName.OrderIrrelevant | plugin/src/cli_utils/upgrade/k8s/mod.rs:119-140 | the answer does not depend on the order of the listing |
| Sourcer.KeptIffFiltered | nix/lib/sourcer.nix:3-14 | walking the tree from the top loses nothing the filter takes, as it takes all ancestors too |
| Sourcer.FilesAreKeptWithTheirAncestors | nix/lib/sourcer.nix:3-14 | a file survives, with all its directories, iff its path starts with an allowed prefix |
| Sourcer.KeptByRelativePath | nix/lib/sourcer.nix:3-14 | by the path below the root: kept iff it starts with an allowed prefix, or is a directory on the way to one |

## Left out

- SemVer.PrecedenceIsStrictTotalOrder: build metadata is not modelled.
- HelmValues.Absorption: null values (which delete keys) and list indices in helm values are not modelled; user argument strings arrive parsed.
- UpgradeJob.Job.ValidateAndBuildHelmUpgrader: the three concurrent input checks run in a fixed order, so the method does not say which of several failures is reported; `Restarts.ChecksInAnyOrder` shows that nothing else depends on their order.
- UpgradeJob.Job.Upgrade: an event counts as published when the recorder accepts it; the recorder's queue, which `openebs-upgrade/src/bin/upgrade-job/main.rs:72-74` only drains on success, is not part of this model.
- ApplyUpgrade.ApplyUpgrade: events are listed atomically, and the lookup of the job image is one yes or no.
- ReleaseName.HelmReleaseName: the Secret and ConfigMap loops are the same text over different types, so one loop stands for both; base64, gzip and JSON decoding is an abstract success or failure per entry.
- Listing.GetLvmVolOutput: field conversions are an abstract partial function; the ZFS and hostpath twins would repeat the proof.
- RegexOr.RegexOrKeeps: the template's key order and the renaming of label keys to meta labels are not modelled; values are those of the same keys on both sides.
- Resources.CreateIsSafe: other writers to the same names during a creation are not modelled.
- Data-plane upgrade, helm, kubectl, the Kubernetes API server and the `mayastor` submodule: outside this repository's code, represented by fates of steps and paged answers.
- Number of retries of the Kubernetes Job (`backoff_limit`): runs of any length are covered instead.
- Role rules, probes, TLS and JWT options, table printing, console logging and command-line structs: no property beyond their text.
- Supportability system dumps other than the paged collection, CI and install scripts, and other Nix packaging: only easy members.
