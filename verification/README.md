# Verification of grafanapi

This project models five parts of grafanapi, a command-line client for Grafana on macOS, and proves what each of them promises: the rotation of session cookies, alerting as code, the ordering of folders, two text scanners, and three smaller pieces. Code that works step by step on state is modelled by classes, arrays and loops, each proved against a function of its inputs; the promises are then proved about those functions, over every input, every run or every interleaving.

`dafny verify dfyconfig.toml` checks the whole project.

## Session rotation

`SessionProtocol.dfy` is the protocol as steps of any number of goroutines: `Current`, entering `Rotate` (short-circuit, join, or lead), the network outcome (a cookie, an error, a panic), publishing under the mutex, closing the channel, persisting, waking, and the retry of `RoundTrip`. One invariant holds over every run. `SessionTheorems.dfy` draws the consequences, `SessionRuns.dfy` says what one RoundTrip, one Rotate and one Refresh come to over a whole run, and `SessionSource.dfy` ties the object with its fields to the critical sections of the protocol.

## Alerting as code

- `Json.dfy`: free-form JSON; dropping empty values, equality under redaction, the walk for redacted leaves.
- `AlertModels.dfy`, `GroupPlan.dfy`: rules and rule groups, the body a group PUT sends, the lines a plan describes a group with. The central result is that an empty plan entry is exactly a write that changes nothing.
- `RouteTree.dfy`: the notification policy tree, compared and written at every depth.
- `BundlePlan.dfy`, `PlanMeaning.dfy`: the plan of a whole bundle, and what it says in terms of the two bundles alone.
- `ScopedPush.dfy`, `ScopedPushTheorems.dfy`, `ScopedRuns.dfy`: the rule-scoped push, its builder and its guard, why the guard is exact, and what the requests of such a push change.
- `PushRun.dfy`, `PushApply.dfy`, `PushTheorems.dfy`, `PushStops.dfy`, `PushVerdicts.dfy`: the phases of a push, when it ends early, and what it refuses to write. The object `PushRun` accumulates its result and its requests; the concurrent group writes complete in any order.
- `PushConvergence.dfy`, `ApplyConvergence.dfy`, `PointConvergence.dfy`: planning again after a push, against a server that replaces what it is sent, hides secrets and stamps what it likes; the writes are those the push itself requests.
- `BundlePush.dfy`: what reading a bundle from disk checks is what the push theorems assume, and a whole bundle pushed a second time plans as Unchanged exactly when it can be settled.
- `RuleOps.dfy`, `RuleOpsTheorems.dfy`, `RuleOpsStops.dfy`: pausing and resuming rules.
- `BundleFiles.dfy`, `BundleLayout.dfy`, `BundleRoundTrip.dfy`: bundles on a disk that compares names without regard to case.

A Go slice element that may be nil is an `Option`; `Present` lists the others. Strings are compared as Go compares them, byte by byte, which for the code points of a string is their numeric order.

## Folders, scanners and the rest

- `FolderLevels.dfy`, `FolderPush.dfy`: folder levels by recursive traversal of nodes, with input whose parent relation has cycles; the push that takes one level at a time, its writes interleaved.
- `ByteText.dfy`, `YamlRedaction.dfy`, `YamlShapes.dfy`, `YamlRedactionTheorems.dfy`: the in-place redactor of YAML text as a fold of a line function, and the shapes of the lines it overwrites.
- `Utf8.dfy`, `TermSafe.dfy`, `TermSafeTheorems.dfy`, `TermSafeOutput.dfy`: the stripper of terminal escape sequences, whose shapes are those of sections 5.4 and 5.6 of ECMA-48. Text is bytes, decoded as section 4 of RFC 3629 says.
- `Discovery.dfy`, `DiscoveryMeaning.dfy`: the discovery index against a plain scan of the discovery lists, and what the scan answers.
- `KeepAlive.dfy`: which contexts are due, how often the agent wakes, and how old a session gets.
- `FolderLeaf.dfy`: the last title of an escaped folder path.
- `Options.dfy`, `Decimal.dfy`, `Sequences.dfy`, `Sorting.dfy`: an option type, decimal text, sequences without repetition, stable sorting.

## Where the code does less than it says

- `internal/alerts/diff.go:345-348` says that an empty detail means the two groups are the same write. The plan pins each rule to the organization of its own match and the write pins every rule to the first organization found, so a remote group of mixed organizations is reported Unchanged and is not (`GroupPlan.MixedOrgsReportUnchanged`). `GroupPlan.UnchangedMeansNoOp` says exactly when the two agree.
- A single lookup in the discovery index lets a full group name win over a short one, a lookup of all versions the other way round, so a text that is both gets answers that do not meet (`Discovery.AmbiguousTextSplitsTheAnswers`). `Discovery.SingleIsAmongAll` gives the exact condition.
- A text cut in the middle of a two-byte introducer is sanitized differently in two parts than in one (`TermSafeTheorems.CutIntroducerIsNotDistributed`). `TermSafeTheorems.DistributesExactlyWhenAligned` gives the exact condition.
- The leaf of a folder path is misread below a folder whose title ends in a backslash, as the source's own comment says (`FolderLeaf.BackslashParentIsMisread`). `FolderLeaf.LeafRoundTrip` gives the exact condition.
- The scoped guard compares plan lines, and a line can be that of two rules: exactly when one uid is some text, " (" and the other uid (`ScopedPushTheorems.LinesCoincideExactlyWhenConfusable`). For such a pair, one named and one not, a doctored bundle is accepted although it changes the rule that is not named; `ScopedPushTheorems.GuardIsSoundExactlyWhenNoneConfused` gives the exact condition on the uids.
- A push does not settle a group that holds a rule without a uid: whatever Grafana holds, the group is planned as a write again (`PushConvergence.UIDlessRuleIsPlannedAgain`). `PushConvergence.ConvergesExactlyWithUIDs` gives the exact condition.
- Nor does it settle a contact point that holds, in the clear, a secret Grafana hides, or one without a uid whose name several listed points bear: the first is an update every time, the second fails the plan. `BundlePush.ReadBundleSettles` says exactly when the second plan of a whole bundle exists and is all Unchanged.

## Model

| member | source | states |
|---|---|---|
| SessionProtocol.StepKeepsInv | internal/config/session_source.go:114-146 | Whichever goroutine moves, the slot in flight belongs to exactly one leader that has not published, that leader's cookie is the current one, and the generation counts the successful rotations. |
| SessionProtocol.StepKeepsPhase | internal/config/session_source.go:114-146 | A step of one goroutine leaves every other one in a phase its view of the shared state allows. |
| SessionProtocol.StepKeepsCall | internal/config/session_source.go:204-230 | A rotate call is open while its leader is bound to it and final once it is closed. |
| SessionProtocol.PublishKeepsPhase | internal/config/session_source.go:204-230 | Publishing a success moves the generation on while nobody else is in flight, so no leader is left with a superseded cookie. |
| SessionTheorems.RunKeepsInv | internal/config/session_source.go:114-146 | The invariant holds after every admissible run. |
| SessionTheorems.RunAppendsRotations | internal/config/session_source.go:204-230 | The cookies a source has had are the initial one and the successful rotations, in order of publication. |
| SessionTheorems.SingleFlight | internal/config/session_source.go:114-146 | In every interleaving at most one network rotation runs, the slot is set exactly while it does, its cookie is the current one, and the generation and cookie are those of the latest success. |
| SessionTheorems.RotateReturnsNewer | internal/config/session_source.go:80-146 | A successful Rotate returns the cookie of a generation strictly newer than the one it was given, whether it led, waited or short-circuited; only cookies of successful rotations are persisted. |
| SessionTheorems.AtMostOneRetry | internal/config/session_source.go:355-419 | In every state of every run, a RoundTrip has sent its request at most twice, each time with the cookie of a known generation, the second a strictly newer one. |
| SessionRuns.RoundTripIsExact | internal/config/session_source.go:355-419 | From its start in any reachable state until its goroutine is idle, a RoundTrip sends the current cookie first and then exactly the retries due, counted over the run: one, with the cookie and generation Rotate returned, when that is a cookie and the body can be replayed, and none otherwise. It reaches Rotate exactly when its first answer is a 401, and a retry carries a newer cookie. |
| SessionRuns.RotateIsExact | internal/config/session_source.go:114-146 | From entering in any reachable state until it returns: with a newer generation Rotate returns the current cookie at once and changes nothing; else it is on one call, makes the network call exactly when none was in flight, persists exactly when that call is its own and succeeded, and returns what the one network call ever made for it came to. |
| SessionRuns.ClosedCallIsItsOutcome | internal/config/session_source.go:204-230 | In every run a closed call has made exactly one network call, and its record is the cookie that answered, or an error for a refusal or a panic. |
| SessionRuns.RefreshIsNeverMissed | internal/config/session_source.go:148-162 | A Refresh is answered without a rotation exactly when one was published since it began, and sends no request. |
| SessionRuns.PersistedIsStored | internal/config/session_source.go:232-257 | The Keychain holds the cookies of the accepted persists, each the result its Rotate returns, in order. |
| SessionTheorems.NoWaiterIsLost | internal/config/session_source.go:125-146 | Whoever waits finds its call closed, or exactly one goroutine is still bound to close it. |
| SessionTheorems.CloseIsFirstAndFinal | internal/config/session_source.go:204-230 | A call is closed once, by its own leader, and after its cookie and error were written. |
| SessionTheorems.ClosedCallIsImmutable | internal/config/session_source.go:204-230 | No later step of any run changes a closed call. |
| SessionTheorems.SomeoneCanMove | internal/config/session_source.go:125-146 | No deadlock: while a goroutine is busy, it or the one it waits for can take a step. |
| SessionTheorems.RunWithoutNewWorkIsBounded | internal/config/session_source.go:114-146 | Without new requests every run ends within eight steps a goroutine. |
| SessionTheorems.EveryoneFinishes | internal/config/session_source.go:114-146 | From every reachable state some continuation brings every goroutine home. |
| SessionSources.SessionSource.Current | internal/config/session_source.go:80-85 | The cookie with the generation it belongs to. |
| SessionSources.SessionSource.Enter | internal/config/session_source.go:114-138 | The first critical section is the protocol's: it short-circuits, joins the call in flight, or registers a new call and leads it. |
| SessionSources.SessionSource.Publish | internal/config/session_source.go:204-226 | The second critical section is the protocol's: it records the outcome, frees the slot, and advances cookie and generation on success only. |
| SessionSources.SessionSource.Close | internal/config/session_source.go:226-230 | Closing changes nothing but the call's done flag. |
| SessionSources.SessionSource.Persist | internal/config/session_source.go:232-257 | The Keychain takes the cookie or does not; nothing else changes. |
| SessionSources.SessionSource.Rotate | internal/config/session_source.go:114-146 | Short-circuits without a change when a newer generation exists. Otherwise, by what the one network call it makes or waits for does: an answered cookie is the result, and cookie and generation move to it; a refusal or a panic is an error and leaves both. The call is closed with that outcome and the slot is free. The leader of a success, and no one else, persists the new cookie, best effort. |
| JsonValues.DropEmptyIsCanonical | internal/alerts/diff.go:187-211 | Two values compare equal after dropping exactly when they differ in nothing but object keys that carry nothing, at any depth, array positions kept. |
| JsonValues.DropEmptyIsIdempotent | internal/alerts/diff.go:187-211 | Dropping twice is dropping once. |
| JsonValues.EmptyAfterDrop | internal/alerts/diff.go:187-211 | A value drops to nothing exactly when it holds nothing at any depth. |
| JsonValues.EqualRedactedMeansRestorable | internal/alerts/diff.go:251-297 | The comparison holds exactly when some filling of the local markers yields the remote value. |
| JsonValues.EqualRedactedIsReflexive | internal/alerts/diff.go:251-297 | Every value equals itself, markers included. |
| JsonValues.WithoutMarkerIsDeepEquality | internal/alerts/diff.go:251-297 | Without a marker the comparison is deep equality. |
| JsonValues.ReadsBackEqual | internal/alerts/diff.go:251-297 | Compared with what a server that hides secrets lists of it, a value is equal exactly when it holds no such secret in the clear. |
| JsonValues.CollectedMeansMarked | internal/alerts/push.go:537-557 | Below a non-empty path the walk reports a leaf exactly when the value holds a marker. |
| JsonValues.NothingCollectedMeansDeepEquality | internal/alerts/push.go:537-592 | For an object without an empty top-level key the walk reports nothing exactly when there is no marker, and then the comparison is deep equality. |
| AlertModels.ProjectionDecidesSameRule | internal/alerts/diff.go:313-315 | Comparing the stripped and emptied projections decides whether two rules are equal in every field but the three Grafana owns. |
| GroupPlan.RuleGroupBody | internal/alerts/body.go:130-143 | The body carries every rule that is present, in order, pinned to the group and the organization, its read-only fields cleared. |
| GroupPlan.ResolveOrgID | internal/alerts/body.go:81-99 | The organization of the first remote rule that has one, else the context's unless that is zero, else none. |
| PlanMeaning.ResolvedOrgIsExact | internal/alerts/body.go:74-99 | The organization a write claims is that of the first remote rule that has one; when none has, the context's, or none when that is zero. |
| PlanMeaning.BodyIsExact | internal/alerts/body.go:34-48 | Each rule of the body is the bundle's in every field but its folder and group, which are the group's own, the organization it claims, and the three fields Grafana owns, which are cleared. |
| GroupPlan.RequireOrgID | internal/alerts/body.go:57-72 | Passes exactly when every rule the body would carry claims an organization. |
| GroupPlan.FindRuleIsFirst | internal/alerts/diff.go:332-344 | The rule found is the first of its uid; there is none exactly when no rule has the uid or it is empty. |
| GroupPlan.RuleDetails | internal/alerts/diff.go:633-671 | The sorted lines of the rules added, replaced, changed and removed. |
| GroupPlan.SharedRuleUIDs | internal/alerts/diff.go:687-697 | The uids also held by the other side, in order. |
| GroupPlan.GroupDetail | internal/alerts/diff.go:349-366 | The interval line, the order line and the rule lines of one group. |
| PlanMeaning.RuleLinesAreExact | internal/alerts/diff.go:562-671 | The rule lines are sorted and say exactly which rules the write adds, changes and removes, and which remote rule a rule without a uid takes the place of: the first of its title that no local rule claims by uid. |
| PlanMeaning.DetailIsExact | internal/alerts/diff.go:349-366 | A line is in the entry exactly when it tells the two intervals and they differ, or notes that the rules both sides have stand in different orders, or reports a rule. |
| PlanMeaning.SharedIsExact | internal/alerts/diff.go:687-697 | The uids both sides have are, in the rules' order, those of the rules whose uid the other side has. |
| PlanMeaning.LinesRead | internal/alerts/diff.go:605-616 | Instances of the text of a rule line: with a uid, without one, and without a title. |
| PlanMeaning.IntervalReads | internal/alerts/diff.go:349-366 | An instance of the interval line: Grafana's interval before the bundle's. |
| Decimal.TextReadsBack | internal/alerts/diff.go:349-366 | The text of a number reads back as the number and has no leading zeros. |
| GroupPlan.EmptyDetailMeansSameInPlace | internal/alerts/diff.go:349-366 | The detail is empty exactly when the intervals agree and each local rule, pinned to its match's organization, is the remote rule at the same place. |
| GroupPlan.UnchangedMeansNoOp | internal/alerts/diff.go:349-366 | For any local group and remote uids in order, the PUT would leave the remote group as it is exactly when the detail is empty and the organization the write pins is the remote rules' own. |
| GroupPlan.UnchangedMeansNoOpInOneOrg | internal/alerts/body.go:34-48 | When the remote rules share an organization, the detail is empty exactly when the PUT changes nothing. |
| GroupPlan.MixedOrgsReportUnchanged | internal/alerts/body.go:81-99 | A remote group of two organizations is planned as Unchanged although the write changes it. |
| RouteTree.ProjectionDecidesSameRoute | internal/alerts/diff.go:301-303 | Comparing the stripped projections decides whether two trees are equal at every node, provenance aside. |
| RouteTree.BodyClaimsNothing | internal/alerts/body.go:103-120 | No node of the body claims a provenance, at any depth. |
| RouteTree.TreePushConverges | internal/alerts/diff.go:510-529 | Whatever provenance Grafana stamps on each node of what it stored, the tree plans as Unchanged again. |
| BundlePlan.MatchContactPoint | internal/alerts/diff.go:410-443 | The first remote point of the uid, else the only one of the name; several of one name are ambiguous. |
| BundlePlan.PointMatchIsExact | internal/alerts/diff.go:410-443 | A match is the first point addressed; without a uid several of one name are ambiguous, and only then; there is none exactly when no remote point is addressed. |
| PlanMeaning.AddressesIsExact | internal/alerts/diff.go:410-443 | A point addresses remote points by its uid alone, or without one by its name; with neither it addresses none. |
| PlanMeaning.EqualPointsFieldByField | internal/alerts/diff.go:213-227 | Two contact points are equal exactly when their names are, or the bundle's is redacted and the remote one has one, and each other setting carries nothing on both sides or is equal under redaction; uid and provenance have no say. |
| PlanMeaning.PointEntryIsExact | internal/alerts/diff.go:464-503 | The entry of a point that is not ambiguous is a Create exactly when it addresses no remote point, and else Unchanged or Update by whether the first one it addresses is equal; its ID is the uid, or the name without one. |
| BundlePlan.PlanContactPoints | internal/alerts/diff.go:464-503 | One entry per point, or an error for an ambiguous point or two points addressing one. |
| BundlePlan.EachRemotePointIsAddressedOnce | internal/alerts/diff.go:464-503 | Planning succeeds exactly when no point is ambiguous and no two address one remote point. |
| BundlePlan.FindGroupIsFirst | internal/alerts/diff.go:318-326 | The group found is the first of that folder and title; there is none exactly when no group has them. |
| BundlePlan.CreatedRuleDetails | internal/alerts/diff.go:165-177 | The sorted lines of every rule of a group to be created. |
| BundlePlan.CreatedEntryListsEveryRule | internal/alerts/diff.go:163-177 | The lines of a Create are those of the group's rules, each once. |
| BundlePlan.PlanRuleGroups | internal/alerts/diff.go:532-560 | One entry per group: a Create with its rules, or Unchanged or Update by whether the detail is empty. |
| PlanMeaning.GroupEntryIsExact | internal/alerts/diff.go:532-560 | The entry of a group is a Create exactly when no remote group has its folder and title; else it has the detail against the first that has, and is Unchanged exactly when that is empty. |
| PlanMeaning.TreeEntryIsExact | internal/alerts/diff.go:510-529 | A bundle with a tree has one entry for it: a Create when Grafana's is not known, else Unchanged exactly when the two are equal. |
| BundlePlan.Plan | internal/alerts/diff.go:74-101 | The entries of the three kinds together, sorted, or the contact points' error. |
| BundlePlan.PlanIsSorted | internal/alerts/diff.go:133-140 | The plan is sorted by its order on entries, which is a total preorder. |
| PlanMeaning.PlanIsOrdered | internal/alerts/diff.go:133-140 | Contact points come before the tree and the tree before the groups; within a kind the IDs ascend. |
| Sorting.StringLeqIsLexicographic | internal/alerts/diff.go:133-140 | Texts are ordered by the first character in which they differ, a prefix first. |
| BundlePlan.PlanHoldsGroups | internal/alerts/diff.go:74-101 | Of each kind the plan holds exactly the entries of the objects of that kind. |
| ScopedPush.RemoteGroupHolding | internal/alerts/scope.go:243-251 | The first group holding a rule of the uid. |
| ScopedPush.LocateLocalRules | internal/alerts/scope.go:30-54 | Fails exactly when the bundle lacks a named rule; else says for each of them, and no other, the first group file holding it. |
| ScopedPush.SyntheticGroup | internal/alerts/scope.go:256-273 | The remote group, slot for slot, with each named rule replaced by the bundle's version. |
| ScopedPush.ScopeBundles | internal/alerts/scope.go:68-106 | The pair that is planned: each remote group holding a named rule once, sorted, beside its synthetic version; nothing when a named rule is missing on a side or would change its group. |
| ScopedPush.AllowedScopedDetails | internal/alerts/scope.go:177-207 | Maps the ID of each group a named rule is credited to, and no other, to the change lines of the named rules credited to it; a rule is credited to the first group holding it. |
| ScopedPush.ScopedOffence | internal/alerts/scope.go:211-240 | Finds an offence exactly in an entry of another kind or action, of a group no named rule is credited to, with a detail that contradicts its action, or with a line that is not allowed. |
| ScopedPush.PlanScoped | internal/alerts/scope.go:154-172 | Yields the plan exactly when it can be made and none of its entries offends. |
| ScopedPushTheorems.LineNamesOneRule | internal/alerts/diff.go:605-616 | Equal lines carry the same uid and title, unless one of the two uids ends in " (" and the other. |
| ScopedPushTheorems.LinesCoincideExactlyWhenConfusable | internal/alerts/diff.go:605-616 | Rules of two different uids can have the same line exactly when one uid ends in " (" and the other. |
| ScopedPushTheorems.AcceptedEntry | internal/alerts/scope.go:211-240 | When every line of an entry reports a named rule, the body keeps the interval, the uids in sequence, and every rule not named. |
| ScopedPushTheorems.AcceptedPlanTouchesOnlyNamedRules | internal/alerts/scope.go:137-172 | For any pair of bundles, built or doctored, whose remote groups each carry unique uids and share one organization, and in which no named uid is confusable with one that is not named: an accepted plan holds groups Grafana has and nothing else, and each body written keeps interval, rule sequence and every rule that is not named. |
| ScopedPushTheorems.GuardIsSoundExactlyWhenNoneConfused | internal/alerts/scope.go:137-240 | Over all pairs of bundles, the guard lets only named rules change exactly when no named uid in use is confusable with one in use that is not named; for such a pair of uids it accepts a doctored bundle that changes the other rule. |
| ScopedPushTheorems.SyntheticEntry | internal/alerts/scope.go:256-273 | Planned against the group it was built from, a synthetic group reports named rules only. |
| ScopedPushTheorems.BuiltPairIsAccepted | internal/alerts/scope.go:68-106 | Whatever the builder makes of a bundle and a well-formed Grafana is accepted by the guard. |
| ScopedPushTheorems.ScopedBodyIsExact | internal/alerts/scope.go:56-106 | In the body written, at each place, a named rule is the bundle's version sent whole and any other rule is Grafana's own. |
| ScopedRuns.AcceptedRunTouchesOnlyNamed | internal/alerts/scope.go:137-172 | Whatever pair was planned and however the run goes, stopped or not: when the check accepts the pair, every request is the write of a group and changes named rules only, as long as no named uid is confusable with one that is not. |
| ScopedRuns.ScopedPushTouchesOnlyNamed | internal/alerts/push.go:616-666 | The same of the whole rule-scoped push, with any scope. |
| ScopedRuns.BuiltPushIsExact | internal/alerts/push.go:51-63 | As it is built, against a well-formed Grafana: the check does not refuse it, and each request is a group Grafana holds, place for place, with the named rules replaced by the bundle's versions. |
| ScopedRuns.ScopedPushIsRefused | internal/alerts/scope.go:30-106 | As it is built, a push of named rules does not start exactly when one of them is in no group on either side, or the first group holding it on one side has another folder or title than on the other. |
| ScopedRuns.NamedRulesAreHeld | internal/alerts/scope.go:30-54 | Whatever scope there is, a push that starts names only rules the bundle holds. |
| PushRuns.GroupProvenance | internal/alerts/provenance.go:115-133 | Fails exactly when two rules differ in provenance; else their common one, or the empty one for a group without rules. |
| PushRuns.GroupProvenanceHeader | internal/alerts/provenance.go:55-62 | Refuses a mixed group and a foreign owner, and else mirrors the stored provenance. |
| PushVerdicts.PointRefusals | internal/alerts/push.go:309-358 | A contact point is refused exactly when two remote points have its name, when the one it would replace is another provisioner's, or when it would be created and holds a redacted uid, name or setting; each case with its own failure. |
| PushVerdicts.TreeRefusals | internal/alerts/push.go:362-388 | The tree is refused exactly when Grafana's is another provisioner's. |
| PushVerdicts.GroupRefusals | internal/alerts/push.go:390-420 | A group is refused exactly when the rules it replaces disagree about their owner, are another provisioner's, or, neither being so, a rule of it has no organization and neither a remote rule nor the context gives one; each case with its own failure. |
| PushVerdicts.FolderRefusals | internal/alerts/push.go:200-213 | Exactly the groups whose folder is missing or forbidden are filed as blocked, each with the failure that says which. |
| PushVerdicts.SentFailsByAnswer | internal/alerts/push.go:425-439 | What is not refused succeeds in a dry run and else exactly when Grafana accepts it; a rejection and a dead session fail it differently. |
| PushApply.PushRun.Record | internal/alerts/push.go:425-439 | Files one outcome, applied or failed, and says whether the run stops, as the function of one step does; when runs stop is the statement of PushStops. |
| PushApply.PushRun.RecordUnchanged | internal/alerts/push.go:442-456 | Files the Unchanged entries as applied and yields the others, each in order. |
| PushApply.PushRun.CreateContactPoint | internal/alerts/push.go:316-343 | Refuses a create holding a redacted secret, dry run or not; else sends the body, once, unless it is a dry run. |
| PushApply.PushRun.UpdateContactPoint | internal/alerts/push.go:487-512 | Writes under the remote uid with the stored provenance mirrored, or refuses a foreign owner. |
| PushApply.PushRun.PushContactPoint | internal/alerts/push.go:347-358 | Creates or updates by whether the remote side holds the point it addresses. |
| PushApply.PushRun.PushPolicyTree | internal/alerts/push.go:362-388 | One PUT of the whole tree, mirroring the stored provenance, or a refusal. |
| PushApply.PushRun.PushRuleGroup | internal/alerts/push.go:393-420 | One PUT of the body under the group's own address, or a refusal for its provenance or a missing organization. |
| PushApply.PushRun.ApplyContactPoints | internal/alerts/push.go:144-166 | The planned points in bundle order, up to the one that stops the run. |
| PushApply.PushRun.ApplyPolicyTree | internal/alerts/push.go:170-177 | At most one write, when the plan and the bundle both have a tree. |
| PushApply.PushRun.RuleGroupTargets | internal/alerts/push.go:460-483 | Each planned group with the local group it was planned from and its remote counterpart. |
| PushApply.PushRun.CheckFolders | internal/alerts/push.go:282-307 | Fails exactly when some folder could not be asked for; else says exactly which folders cannot be written into, and why. |
| PushApply.PushRun.RecordBlocked | internal/alerts/push.go:200-213 | The groups of blocked folders are recorded as failed and the others kept, each in order. |
| PushApply.PushRun.ApplyRuleGroupsInOrder | internal/alerts/push.go:262-270 | One write at a time, up to the first failure. |
| PushApply.PushRun.WriteAll | internal/alerts/push.go:228-245 | In whatever order the writes complete, each target is written once and its own outcome kept. |
| PushApply.PushRun.ApplyRuleGroupsConcurrently | internal/alerts/push.go:228-256 | The concurrent writes have the results of the ordered ones; only the order of requests is open. |
| PushApply.PushRun.ApplyRuleGroups | internal/alerts/push.go:189-220 | Nothing after a failed folder check, else the blocked groups recorded and the others written. |
| PushApply.PushRun.Apply | internal/alerts/push.go:125-137 | The whole run: its results and its stop, and its requests, each once, contact points, then the tree, then the groups; only the order of concurrent group writes is open. |
| PushApply.GroupRequests | internal/alerts/push.go:189-256 | However the group writes interleave, they come after every other request. |
| PushApply.Push | internal/alerts/push.go:616-666 | With rules named, the run of the pair the scope makes of them, or nothing when the bundle lacks one or the check refuses the plan; otherwise the run of the bundle. The result is sorted, and a dry run never stops at a refusal. |
| PushStops.LaxRunStops | internal/alerts/push.go:125-256 | Without stop-on-error a run is stopped exactly when the folder of a pending group could not be asked for or some request found the session dead. Nothing follows such a request of the first two phases, no group is written with a folder unknown, and otherwise every item is attempted. |
| PushStops.ArrivedDeadEnds | internal/alerts/push.go:228-256 | The same of the requests in the order they arrive: nothing follows one that found the session dead, unless both are writes of groups. |
| PushStops.StrictRunStops | internal/alerts/push.go:262-270 | With stop-on-error a run attempts its items one by one up to the first failure of any kind, the only one it files, and nothing after it; without a failure it attempts them all, or those before the groups when a folder could not be asked for. |
| PushStops.ReportIsInPlanOrder | internal/alerts/push.go:607-612 | A push reports what it applied and what failed, each entry as it was filed, both in plan order. |
| PushTheorems.UnstoppedRunIsItsItems | internal/alerts/push.go:125-256 | A run nothing stops attempts each of its items once, in order. |
| PushTheorems.LookupFindsOwnEntry | internal/alerts/push.go:522-532 | With unique IDs, looking an object up among the pending entries finds its own entry, or nothing when that is Unchanged. |
| PushTheorems.LastOfIDCounts | internal/alerts/push.go:522-532 | Of several entries of one kind and ID the last is found. |
| PushTheorems.EveryEntryIsReportedOnce | internal/alerts/push.go:125-256 | With unique IDs, the applied and failed entries of a run nothing stops are the plan, each entry exactly once. |
| PushTheorems.NoWriteForUnchanged | internal/alerts/push.go:442-456 | The requests are the writes of the pending entries that are not refused, none in a dry run; no entry attempted is Unchanged. |
| PushTheorems.EveryWriteIsAllowed | internal/alerts/push.go:309-420 | Whatever the plan and the answers, each request carries an object of the bundle as its body function makes it, an update goes to the remote object that one addresses, and no object of another provisioner, no group of mixed owners, no create with a redacted secret and no rule without an organization is written; no write changes who owns what it updates. |
| PushTheorems.DryRunPredictsApply | internal/alerts/push.go:125-256 | Phase by phase a dry run makes no request and has the applied and failed entries, the failures and the stop of an apply with its settings whose every write is accepted. |
| PushTheorems.DryPushPredictsApply | internal/alerts/push.go:616-666 | A dry run, asked to stop on failures or not, reports what an apply that does not stop and is accepted throughout reports; one that may stop does so exactly when the dry run stopped or shows a failure, and otherwise reports the same. |
| PushTheorems.DryRunRefusalsStand | internal/alerts/push.go:45-50 | What a dry run refuses an apply refuses too, whatever Grafana answers the other writes. |
| PushConvergence.PushSettles | internal/alerts/push.go:390-420 | After any number of the writes, in any order, each group of the bundle is as its own write left it or as it was, since no other write holds one of its uids. |
| PushConvergence.StoredPlansUnchanged | internal/alerts/body.go:34-48 | What the server stores of a body plans as Unchanged against the file it came from, whatever folder, group and organization the file left out. |
| PushConvergence.ConvergesExactlyWithUIDs | internal/alerts/push.go:362-420 | After a push whose writes all succeeded, in any order, a group of the bundle plans as Unchanged exactly when all its rules carry uids. |
| PushConvergence.UIDlessRuleIsPlannedAgain | internal/alerts/diff.go:562-572 | A group with a rule that has no uid is planned as a write against any remote group, the one its own write left included. |
| ApplyConvergence.AcceptedApplyIsAPush | internal/alerts/push.go:125-256 | The group requests of an apply that nothing stopped and in which nothing failed, in whatever order they arrived, are the writes of bodies of groups of the bundle, every changed group among them. |
| ApplyConvergence.AcceptedApplyConverges | internal/alerts/push.go:125-256 | After such an apply a group of the bundle plans as Unchanged exactly when all its rules carry uids. |
| PointConvergence.StoredPointIsEqual | internal/alerts/diff.go:213-227 | What Grafana lists of a contact point it stored compares equal to the bundle's exactly when that one holds no secret in the clear. |
| PointConvergence.PointsConverge | internal/alerts/push.go:144-166 | After such an apply a contact point whose match is not ambiguous plans as Unchanged exactly when it was Unchanged before, or holds no secret in the clear. |
| PointConvergence.TreeConverges | internal/alerts/push.go:362-388 | After such an apply the policy tree plans as Unchanged. |
| BundlePush.ReadBundleIsChecked | internal/alerts/files.go:178-205 | Every bundle that is read has valid groups that declare no group and no uid twice, and valid contact points with IDs of their own. |
| BundlePush.CheckedPlanHasUniqueIDs | internal/alerts/diff.go:74-101 | The plan of such a bundle has one entry for each ID of a kind. |
| BundlePush.CheckedGroupsAreReadable | internal/alerts/files.go:375-392 | No two groups of such a bundle share an address or hold one uid. |
| BundlePush.CheckedGroupHasNoUIDTwice | internal/alerts/files.go:895-950 | No group of such a bundle holds a uid twice. |
| BundlePush.SecondPlanExists | internal/alerts/diff.go:464-503 | After such an apply the bundle can be planned again exactly when no contact point of it is ambiguous in the new listing. |
| BundlePush.SecondPushIsUnchanged | internal/alerts/push.go:125-256 | That second plan is all Unchanged exactly when every rule carries a uid and no contact point that was written holds a secret in the clear. |
| BundlePush.ReadBundleSettles | internal/alerts/push.go:616-666 | Both of every bundle that is read from disk. |
| RuleOps.DedupeUIDs | internal/alerts/ruleops.go:369-384 | The list without its repetitions. |
| Sequences.DedupeKeepsFirsts | internal/alerts/ruleops.go:369-384 | The same uids, each once, in the order of their first occurrence. |
| RuleOps.GroupBatches | internal/alerts/ruleops.go:422-440 | One batch for each group, in the order the groups first occur, each with all its rules in order. |
| RuleOps.BatchesPartition | internal/alerts/ruleops.go:422-440 | The batches are a partition of the rules by group. |
| RuleOps.RuleOpRun.Record | internal/alerts/ruleops.go:298-306 | Files one outcome; only a dead session stops the run. |
| RuleOps.RuleOpRun.RecordChanged | internal/alerts/ruleops.go:310-321 | Files every rule as changed. |
| RuleOps.RuleOpRun.FailRules | internal/alerts/ruleops.go:180-188 | Files the same failure for every rule, or for the first alone when it is a dead session, which stops the run; nothing else does. |
| RuleOps.RuleOpRun.PauseTargets | internal/alerts/ruleops.go:237-267 | Yields the places of the named rules not in the requested state and settles the others. |
| RuleOps.FlipsAreNeeded | internal/alerts/ruleops.go:215-217 | Flipping at those places puts exactly the named rules in the requested state, and there are such places exactly when some named rule is not. |
| RuleOps.RuleOpRun.PauseGroup | internal/alerts/ruleops.go:192-293 | At most one PUT: none when the group cannot be read, is gone, needs no flip or refuses its header; otherwise the body with the named rules flipped. The results are filed in order up to the first that finds the session dead, and it stops exactly when there is one. |
| RuleOps.Grafana.Fetch | internal/alerts/ruleops.go:392-418 | Finds the rule of the uid exactly when the lookup is answered and some group holds it, and else says why not; an empty uid is never asked for. |
| RuleOps.RuleOpRun.Resolve | internal/alerts/ruleops.go:328-350 | The named rules that exist, in order, before any write; the others are settled, up to the first lookup that finds the session dead, where it stops, and only there. |
| RuleOps.RuleOpRun.Results | internal/alerts/ruleops.go:354-364 | The outcomes in the order the uids were named. |
| RuleOps.SetRulesPaused | internal/alerts/ruleops.go:86-110 | The whole run: the batches one after the other, up to the one that finds the session dead and none when a lookup does; it reports the results filed until then, and stops exactly when the session is found dead. |
| RuleOps.LiveRunIsWhole | internal/alerts/ruleops.go:86-110 | A run that does not find the session dead gets through every batch and reports every outcome. |
| RuleOpsStops.StopsAtDeadSession | internal/alerts/ruleops.go:86-110 | A run is stopped exactly when a request it makes finds the session dead: a lookup, and then it reaches no group, or the read or write of a group, and then it reaches no later one. Otherwise it reaches every group. |
| RuleOpsStops.FiledUpToFirstDeath | internal/alerts/ruleops.go:298-306 | What is filed are the results up to the first that says the session is dead, that one included. |
| RuleOpsStops.PauseMirrorsProvenance | internal/alerts/ruleops.go:271-293 | A write of a group mirrors the provenance its rules are stored with, which they share. |
| RuleOps.WrittenIsPaused | internal/alerts/ruleops.go:192-229 | The stored group is the old one, rule for rule, with the named rules in the requested state and only read-only stamps changed. |
| RuleOpsTheorems.EachGroupIsWrittenOnce | internal/alerts/ruleops.go:86-110 | No group is PUT twice, however many of its rules are named, and a dry run PUTs none. |
| RuleOpsTheorems.PauseIsExact | internal/alerts/ruleops.go:192-293 | When every answer is a success, in each group that can be written exactly the named rules change, in isPaused alone but for stamps; any other group is untouched. |
| RuleOpsTheorems.OneResultPerUID | internal/alerts/ruleops.go:354-384 | One result per distinct uid in command-line order, saying what happened to it: unread, not found, unchanged, refused, failed or changed. |
| RuleOpsStops.ResultNamesRule | internal/alerts/ruleops.go:455-489 | The result of a rule that was looked up carries its title and group as Grafana holds them, and is no failure when it says changed. |
| RuleOpsTheorems.PausedMeansSettled | internal/alerts/ruleops.go:192-293 | After a run whose answers were all successes, no named rule is left to flip exactly when no group that refuses a write held a named rule to flip. |
| RuleOpsTheorems.RunKeepsWellFormed | internal/alerts/ruleops.go:192-293 | A run leaves groups that are well formed: each under its own folder and title, each uid one rule. |
| RuleOpsTheorems.SecondRunChangesNothing | internal/alerts/ruleops.go:86-110 | Two runs in a row: after one whose answers were all successes the same run again makes no PUT, whatever Grafana answers; when it answers, every named rule that exists is reported as unchanged, but for those to flip in a group that refuses the write, which are refused again. |
| BundleFiles.SanitizedIsClean | internal/alerts/files.go:768-786 | A component holds no slash, backslash or control character, is neither empty nor hidden, and keeps every other character in its place; exactly such a name is its own component. |
| BundleLayout.SanitizedCharByChar | internal/alerts/files.go:768-786 | A component is the name with an underscore for each slash, backslash and control character and for a leading dot, and "_" for the empty name. |
| BundleLayout.FoldedCharByChar | internal/alerts/files.go:428-432 | The filesystem takes ASCII capitals for their small letters and nothing else for anything else. |
| BundleLayout.GroupFileIsExact | internal/alerts/files.go:434-441 | A group's file is the component of its folder, and below it that of its title with the extension of the format. |
| BundleLayout.BundleFileByExtension | internal/alerts/files.go:444-449 | A file is the layout's exactly when its name ends, in whatever case, in .yaml, .yml or .json. |
| BundleLayout.StrippedIsExact | internal/alerts/files.go:810-866 | What a file holds of a group is the group with its rules in their places, equal in every field but the three Grafana owns, which are cleared. |
| BundleLayout.StrippedPointsAreExact | internal/alerts/files.go:789-808 | What a file holds of contact points is each in its place, equal in every field but its provenance, which is cleared. |
| BundleLayout.ValidRuleIsExact | internal/alerts/files.go:953-972 | A rule is valid exactly when it has a title, a condition, data, both states and a duration. |
| BundleLayout.ValidPointIsExact | internal/alerts/files.go:869-890 | A contact point is valid exactly when it has a name, a type and settings. |
| BundleLayout.InvalidGroupIsExact | internal/alerts/files.go:895-950 | A group is refused exactly for lack of a folder or title, an interval that is not positive, a slot without a valid rule, or two rules of one uid. |
| BundleLayout.ClashIsExact | internal/alerts/files.go:602-678 | Two groups cannot stand in one bundle exactly when they have one folder and title, read as an ID, or a rule each of one uid. |
| BundleFiles.ValidateGroup | internal/alerts/files.go:895-950 | Accepts exactly the groups with folder, title, positive interval, valid rules and no uid twice. |
| BundleFiles.ClaimFiles | internal/alerts/files.go:999-1022 | Fails exactly when two groups map to one folded path, before anything is written. |
| BundleLayout.CollidesIsExact | internal/alerts/files.go:999-1022 | Two groups collide exactly when folder and file components are one to a filesystem that does not tell cases apart. |
| BundleFiles.Disk.WriteFile | internal/alerts/files.go:974-992 | Creates the folder when needed and writes into an existing entry under its own spelling; fails exactly when something else stands there. |
| BundleFiles.Disk.WriteGroupFiles | internal/alerts/files.go:999-1042 | A collision leaves the disk as it was; else the groups are written in order up to the first in whose way something stands, and it succeeds exactly when there is none, saying which files are current. |
| BundleFiles.Disk.PruneGroupFiles | internal/alerts/files.go:515-560 | Removes exactly the bundle files of prunable folders that were not just written. |
| BundleFiles.Disk.WriteTopLevelFile | internal/alerts/files.go:1049-1077 | Leaves the file in the requested format only, or none; fails exactly when an entry in the way cannot be removed. |
| BundleFiles.Disk.WriteBundle | internal/alerts/files.go:95-115 | Succeeds exactly when no two groups collide, nothing but files and directories stands in their way and the top-level files can be removed; then the disk holds the groups, the pruning and the two top-level files. A collision changes nothing, and an obstacle stops the groups there. |
| BundleLayout.BundleFitsExactly | internal/alerts/files.go:95-115 | What a write needs: no two groups with files of one folded path, no other entry where a group's folder or file goes, and under each of the six top-level names nothing, a file or an empty directory. |
| BundleLayout.WrittenIsExact | internal/alerts/files.go:974-992 | One write leaves the document in the file; a folder or entry that was there keeps its spelling, and nothing else changes. |
| BundleFiles.DeclareRuleUIDs | internal/alerts/files.go:375-392 | Fails exactly when a uid of the group was declared by another file. |
| BundleFiles.ReadGroupFiles | internal/alerts/files.go:615-678 | In whatever order the directories list the files: succeeds exactly when each holds a valid group and none repeats a group or a uid, and then yields them sorted. |
| BundleLayout.ReadKeysAreExact | internal/alerts/files.go:615-678 | The files that are read are the regular ones whose name ends in one of the three extensions. |
| BundleFiles.BundleFilePath | internal/alerts/files.go:251-270 | The one regular file of a base name, none, or an error for two. |
| BundleLayout.TopFoundIsExact | internal/alerts/files.go:251-270 | A top-level file is looked for under three names, and only a regular file counts. |
| BundleRoundTrip.ValidateContactPoints | internal/alerts/files.go:568-600 | Accepts exactly lists of valid entries without a repeated ID. |
| BundleRoundTrip.ReadContactPointsFile | internal/alerts/files.go:568-600 | The contact points of the one file; no file is not an empty list. |
| BundleRoundTrip.ReadPolicyFile | internal/alerts/files.go:685-701 | The policy tree of the one file, if it validates. |
| BundleRoundTrip.ReadBundle | internal/alerts/files.go:178-205 | Succeeds exactly when the three parts can be read, and yields them. |
| BundleRoundTrip.OnlyWrittenAreRead | internal/alerts/files.go:515-560 | After a write that prunes every folder, exactly the files of the bundle's groups are read. |
| BundleRoundTrip.OrderDoesNotMatter | internal/alerts/files.go:602-678 | The sorted groups do not depend on the order the directories list the files in. |
| BundleRoundTrip.WrittenBundleReadsBack | internal/alerts/files.go:95-115 | Whatever the directory held, a valid bundle written with nil KeepFolders can be read, and reads back as itself stripped and sorted. |
| BundleRoundTrip.PruningIsExact | internal/alerts/files.go:515-560 | No file just written is missing, and of the others exactly the bundle files of prunable folders are gone. |
| BundleLayout.PrunedIsExact | internal/alerts/files.go:515-560 | Pruning removes a file exactly when it was not just written, its name is the layout's, and all folders are to be pruned or its own is that of a named uid; it changes no other. |
| BundleRoundTrip.OtherFoldersAreKept | internal/alerts/files.go:515-560 | With folders named, an unwritten file of any other folder is untouched. |
| FolderLevels.BuildFolderHierarchy | internal/resources/remote/folder_hierarchy.go:162-192 | One node per name, children lists exactly the parent relation inside the set, and roots exactly the folders without a parent in it. |
| FolderLevels.LastOfNameWins | internal/resources/remote/folder_hierarchy.go:162-192 | Of several folders of one name the last counts. |
| FolderLevels.Traverse | internal/resources/remote/folder_hierarchy.go:195-209 | The recursion ends, and everything under the node gets its depth as level. |
| FolderLevels.AssignLevels | internal/resources/remote/folder_hierarchy.go:195-209 | A folder whose chain reaches a root gets its depth, every other one keeps -1, cycles or not. |
| FolderLevels.DepthIsBounded | internal/resources/remote/folder_hierarchy.go:195-209 | A depth is smaller than the number of folders. |
| FolderLevels.WalkFindsCycle | internal/resources/remote/folder_hierarchy.go:122-151 | A chain that never reaches a root runs into a cycle. |
| FolderLevels.SortFoldersByDependency | internal/resources/remote/folder_hierarchy.go:122-151 | Fails exactly when the parent relation inside the set has a cycle; otherwise level d holds exactly the folders of depth d. |
| FolderLevels.ParentOneLevelEarlier | internal/resources/remote/folder_hierarchy.go:122-151 | The levels are a partition, and a parent in the set is exactly one level before its child. |
| FolderPush.ParentFinishesFirst | internal/resources/remote/pusher.go:137-172 | However the writes of a level interleave, a folder starts only after its parent has finished, level after level. |
| FolderPush.PushLevel | internal/resources/resources.go:283-296 | In whatever order, each folder of the level starts and finishes once, never more at a time than allowed; all are waited for, and it succeeds exactly when no push fails. |
| FolderPush.PushFolders | internal/resources/remote/pusher.go:100-172 | The push goes level by level and ends with the first level in which one fails, so no folder starts before its parent has finished; a cycle pushes nothing; it succeeds exactly when there is no cycle and no push fails. |
| YamlRedaction.IsBlockMarkerAt | internal/secrets/yaml.go:281-303 | The marker test of the buffer decides the marker predicate of the line. |
| YamlRedaction.RedactFill | internal/secrets/yaml.go:310-324 | The span holds the sentinel cut or padded to its length, and nothing else changes. |
| YamlRedaction.TryRedactKey | internal/secrets/yaml.go:188-269 | One line read as a key line: the buffer and the state change as the line function says, which is characterised by YamlShapes.ReadingIsShape. |
| YamlRedaction.RedactBufferLine | internal/secrets/yaml.go:147-183 | One line of the buffer in the given state is one step of the fold. |
| YamlRedaction.RedactInPlace | internal/secrets/yaml.go:133-184 | The whole buffer becomes the fold of the line function over its lines, which is characterised by YamlRedactionTheorems.OnlySecretsAreOverwritten. |
| YamlShapes.ReadingIsShape | internal/secrets/yaml.go:188-303 | A line is read as carrying a secret from a byte on exactly when it has a denylisted key there: blanks, perhaps "- " and blanks, the whole run of key bytes, and then another separator at that byte, or a colon, blanks, and at that byte a value that is no comment and marks no block. It opens a block exactly when such a value marks one. |
| YamlRedactionTheorems.JoinSplit | internal/secrets/yaml.go:133-184 | Splitting at newlines loses nothing. |
| YamlRedactionTheorems.RedactionKeepsShape | internal/secrets/yaml.go:133-184 | The length and the exact set of newline positions are kept. |
| YamlRedactionTheorems.RedactionIsIdempotent | internal/secrets/yaml.go:133-184 | A second pass changes nothing, the two states in step. |
| YamlRedactionTheorems.StateMeansOpenBlock | internal/secrets/yaml.go:147-183 | The machine is in a block opened at a column exactly when a secret block of that column is open before the line. |
| YamlRedactionTheorems.OnlySecretsAreOverwritten | internal/secrets/yaml.go:133-269 | Told of the bytes alone: each line is masked from its indentation on inside the block of a denylisted key, from the value on where it carries one, with the sentinel padded to the end of its visible part; every other byte is left as it is. |
| Utf8.DecodeEncoded | internal/termsafe/termsafe.go:95-121 | A rune that is written is read back, whatever follows it. |
| Utf8.DecodeIsExact | internal/termsafe/termsafe.go:95-121 | Reading bytes yields the scalar whose encoding they start with, and U+FFFD of one byte when they start with none. |
| Utf8.EncodeIsUtf8 | internal/termsafe/termsafe.go:95-121 | A scalar takes one to four bytes by its size, and its value is put together of the bits the bytes carry, as section 3 of RFC 3629 says. |
| TermSafe.CsiLen | internal/termsafe/termsafe.go:170-185 | Where the control sequence that starts here ends. |
| TermSafe.StringLen | internal/termsafe/termsafe.go:191-210 | Where the control string that starts here ends. |
| TermSafe.EscapeLen | internal/termsafe/termsafe.go:141-165 | Where the escape sequence ends. |
| TermSafe.SequenceLen | internal/termsafe/termsafe.go:125-138 | Which introducer starts here, and where its sequence ends. |
| TermSafe.Sanitize | internal/termsafe/termsafe.go:95-121 | The walk ends with the text of the greedy segmentation; TermSafeOutput.SanitizedRuneByRune says what that is. |
| TermSafe.Cell | internal/termsafe/termsafe.go:64-66 | The sanitized text in which newlines and tabs are spaces too. |
| TermSafe.Text | internal/termsafe/termsafe.go:71-73 | The sanitized text in which newlines and tabs are kept. |
| TermSafeTheorems.SegmentsCoverText | internal/termsafe/termsafe.go:95-121 | The segments put together are the text; a dropped one opens with an introducer and a kept one is the bytes of one rune, which is none. |
| TermSafeTheorems.CsiEndIsLongest | internal/termsafe/termsafe.go:170-185 | A control sequence ends at the longest match of parameter bytes, intermediate bytes and at most one final byte. |
| TermSafeTheorems.StringEndIsFirstTerminator | internal/termsafe/termsafe.go:187-210 | A control string ends with the first rune that ends it, or before an ESC that begins no terminator, or with the text. |
| TermSafeTheorems.EscapeEndIsItsShape | internal/termsafe/termsafe.go:154-164 | Any other ESC takes its intermediate bytes and final byte with it, or goes alone when it has no such shape. |
| TermSafeTheorems.SequenceEndByIntroducer | internal/termsafe/termsafe.go:125-152 | Which introducer starts the text decides what ends its sequence: ESC [ and U+009B open a control sequence, ESC ] P X ^ _ and the five C1 string introducers a control string, any other ESC an escape sequence, and no other rune one. |
| TermSafeOutput.DroppedIsSequence | internal/termsafe/termsafe.go:95-121 | What is dropped at a place is the whole sequence that starts the rest of the text there, and what is kept starts none. |
| TermSafeOutput.SanitizedRuneByRune | internal/termsafe/termsafe.go:88-121 | The output is the UTF-8 of the runes outside the dropped sequences, one for one and in order, each itself but for a control or format rune that is not kept as layout, which is a space. |
| TermSafeOutput.KeptExactlyWhenPlain | internal/termsafe/termsafe.go:59-73 | A text is returned as it is exactly when it is valid UTF-8 and has no control or format rune but newlines and tabs kept as layout. |
| TermSafeTheorems.SanitizedIsSafe | internal/termsafe/termsafe.go:88-121 | The output holds no control or format rune, but for newline and tab when layout is kept. |
| TermSafeTheorems.SanitizedIsStable | internal/termsafe/termsafe.go:95-121 | A second pass changes nothing. |
| TermSafeTheorems.SanitizedIsNoLonger | internal/termsafe/termsafe.go:95-121 | The output has no more runes than the input. |
| TermSafeTheorems.DistributesExactlyWhenAligned | internal/termsafe/termsafe.go:95-210 | When the left part holds no introducer, sanitizing distributes over the concatenation exactly when the cut is at a rune boundary of the whole. |
| TermSafeTheorems.CutIntroducerIsNotDistributed | internal/termsafe/termsafe.go:125-138 | A cut inside the two bytes of U+009B is sanitized differently. |
| Discovery.RegistryIndex.Update | internal/resources/discovery/registry_index.go:113-256 | Accepts exactly lists without a version declared twice, an unreadable group version or a resource at an undeclared version; then the index says what the lists say; a failure leaves it unchanged. |
| DiscoveryMeaning.OneListIsExact | internal/resources/discovery/registry_index.go:165-241 | A list yields a descriptor for each resource, in order, with its names and with its own group and version before the list's; it is refused exactly when it has resources and its group version cannot be read. |
| DiscoveryMeaning.ParseIsExact | internal/resources/discovery/registry_index.go:421-440 | A group version is read exactly of a group and a version, neither empty, around the only slash. |
| DiscoveryMeaning.DeclaredIsExact | internal/resources/discovery/registry_index.go:134-163 | Each group declares its versions, in order, one group after the other. |
| DiscoveryMeaning.GroupForIsExact | internal/resources/discovery/registry_index.go:271-294 | For a single answer a text names the group of that full name, and else the last one of that short name, which is the text before the first dot; for all versions a short name goes first. |
| Discovery.RegistryIndex.GetKindCandidates | internal/resources/discovery/registry_index.go:258-269 | The candidates of a name, or nothing when there are none, as a plain scan finds them. |
| DiscoveryMeaning.CandidatesExist | internal/resources/discovery/registry_index.go:258-269 | There are candidates exactly when some resource has the name as its kind, its singular or its plural. |
| Discovery.RegistryIndex.FilterCandidates | internal/resources/discovery/registry_index.go:271-342 | The answer of a plain scan among the candidates. |
| Discovery.RegistryIndex.LookupPartialGVK | internal/resources/discovery/registry_index.go:79-91 | The answer of a plain scan of the accepted lists, which DiscoveryMeaning.ScanOneIsExact characterises. |
| Discovery.RegistryIndex.FilterAllCandidates | internal/resources/discovery/registry_index.go:348-415 | In whatever order the maps are walked, exactly the scan's answers for all versions, each once; with a version, the single answer. |
| Discovery.RegistryIndex.LookupAllVersionsForPartialGVK | internal/resources/discovery/registry_index.go:98-110 | Exactly the scan's answers for all versions, each once, or none when there are none; DiscoveryMeaning.ScanAllIsExact characterises them. |
| Discovery.AnswerIsDiscovered | internal/resources/discovery/registry_index.go:271-342 | A single answer is a discovered descriptor of the kind of a resource carrying the name, in the group the text names, at the version asked for or the preferred one. |
| DiscoveryMeaning.ScanOneIsExact | internal/resources/discovery/registry_index.go:258-342 | There is a single answer exactly when the lists have one: in the group the text names, a full name before a short one, or else that of the first resource of the name, kinds before singulars before plurals, the first resource at the version asked for, or at the preferred one, with the kind, not empty, of the first resource of the name there, if the group declares that version. |
| DiscoveryMeaning.ScanAllIsExact | internal/resources/discovery/registry_index.go:258-415 | A descriptor is among the answers for all versions exactly when, in its group, which the text names if there is one, a short name before a full one, it is the first of its declared version with the kind, not empty, of the first resource of the name there. |
| Discovery.SingleIsAmongAll | internal/resources/discovery/registry_index.go:271-415 | With no version asked for, the single answer is among the answers for all versions exactly when the group text is not one group's full name and another's short name. |
| Discovery.AmbiguousTextSplitsTheAnswers | internal/resources/discovery/registry_index.go:276-294 | An instance of such a text: a full group name that is another group's short name, whose single answer is not among the answers for all versions. |
| KeepAlive.SortedContextNames | cmd/grafanapi/session/refresh.go:337-346 | Every name once, sorted. |
| KeepAlive.DeriveInterval | cmd/grafanapi/session/keepalive.go:430-441 | Half the smallest window, but a quarter of an hour for windows up to 30 minutes and twelve hours for windows from a day. |
| KeepAlive.MinLiveWindowAcrossContexts | cmd/grafanapi/session/keepalive.go:406-425 | The smallest window of the contexts that opted in, if one did, and a warning exactly for each unusable one. |
| KeepAlive.DueContexts | cmd/grafanapi/session/refresh.go:275-301 | Exactly the contexts that opted in and are at least their window old, sorted; warnings exactly for unusable windows and unreadable stores. |
| KeepAlive.WarnsIsExact | cmd/grafanapi/session/refresh.go:275-301 | A warning is due exactly for an unusable window, and for an unreadable time where there is a window to compare it with. |
| KeepAlive.Keychain.RunDue | cmd/grafanapi/session/refresh.go:205-219 | Every due context is attempted and no other; those whose rotation fails keep their time, and the run succeeds exactly when none fails. |
| KeepAlive.SessionsStayFresh | cmd/grafanapi/session/keepalive.go:427-441 | Over every run, from any stored times, with rotations outside the schedule and failing ones: an opted-in session that did not fail at the last wake, or was renewed since, is younger than its window plus the interval. |
| KeepAlive.OneAndAHalfWindowsExactly | cmd/grafanapi/session/keepalive.go:427-441 | Sessions stay younger than one and a half windows over every run exactly when the smallest window is at least 30 minutes less a nanosecond. |
| FolderLeaf.FolderLeaf | internal/alerts/rules.go:506-516 | The text after the last separator, its escapes undone. |
| FolderLeaf.UnescapeUndoesEscape | internal/alerts/rules.go:506-516 | Undoing the escape of a title yields the title. |
| FolderLeaf.LeafIsReadTitle | internal/alerts/rules.go:491-504 | The leaf of any path is its last title, merged with each parent above it that ends in a backslash. |
| FolderLeaf.LeafRoundTrip | internal/alerts/rules.go:506-516 | The leaf is the last title exactly when its parent's title does not end in a backslash. |
| FolderLeaf.BackslashParentIsMisread | internal/alerts/rules.go:491-504 | An instance of it: a child of a folder ending in a backslash is read as one title with it. |

## Left out

- PushApply.Push: what is fetched of Grafana is a parameter, the remote bundle; a push whose fetch fails ends before its plan.
- Transport, TLS, the generated client, the Keychain, launchd and the command line: foreign calls. Grafana's answers, the clock and the stored rotation times are parameters.
- JSON and YAML codecs: a file holds a decoded document, and a record has one JSON object. Numbers are integers or reals; the fallback to text for a number out of range is not part of this model.
- Error texts, logging and rendering. Plan lines are modelled as text, since the scoped guard compares them.
- SessionSources.SessionSource.Publish: the generation is unbounded; the wrap-around of the 64-bit counter is not modelled.
- SessionTheorems.RotateReturnsNewer: says of persisted values only that each is some successful rotation's cookie; the writes of two rotations can land in either order, so the stored one need not be the last.
- SessionRuns.RoundTripIsExact: a request to another origin, which is refused before the cookie is read and sends nothing, is not modelled, nor is a first request that gets no response, which ends as one that is not answered 401.
- SessionTheorems.EveryoneFinishes: says that every goroutine can finish, not that a scheduler lets it.
- JsonValues.DropEmptyIsCanonical: the source edits freshly decoded maps and slices in place and nothing else refers to them, so they are values here; the comparison walks are values for the same reason.
- PointConvergence.PointsConverge: a create that is accepted takes a uid that was free, and nobody else changes a contact point between the plan and the second listing; which settings a type keeps secret is a parameter.
- PushTheorems.EveryEntryIsReportedOnce: for runs nothing stops; a run stopped by a failure or a dead session leaves entries unreported by design.
- RuleOps.SetRulesPaused: between its reads and its writes nobody else changes a group, and Grafana holds a uid in one group; a rule that moved meanwhile is a failure of PauseTargets.
- ScopedPushTheorems.BuiltPairIsAccepted: Grafana's rules carry their group's folder and title and its uids are its own; otherwise the guard may refuse what the builder made, and soundness does not depend on it.
- DeleteRules looks up and deletes each named rule by itself; the pull that selects rules refuses to replace a group file it cannot match and writes the others; the scoped push warns about differences outside the named rules.
- BundleFiles.Disk.WriteBundle: names are folded by ASCII lower case, without Unicode normalization, and component by component; links, permissions, a rules entry that is not a directory, and read or write errors of the filesystem are not modelled. The nested directory loops of reading are one loop over the files.
- BundleRoundTrip.ReadPolicyFile: the generated validation of a route is a parameter.
- TermSafe.Sanitize: the Unicode format category is a parameter, a set of code points; the splitting of text into runes for display is not modelled.
- The denylist of the redactor comes from reflection over the configuration type and is a parameter.
- Discovery.RegistryIndex.Update: the read-write lock makes each call atomic, which is assumed; the index also lists its descriptors and preferred versions as they stand.
- KeepAlive.DueContexts: the parsing of a duration is a parameter.
- FolderPush.PushFolders: what the push of a resource does is a parameter, whether it returns an error; a cancelled context is not modelled.
- BundleRoundTrip.WrittenBundleReadsBack: file names fold by ASCII case alone, without Unicode normalization, so two names the filesystem identifies by normalization are two files here.
- Server URL parsing, the redactor by reflection, explore rendering, the serve proxy, live reload and the selector parser.
