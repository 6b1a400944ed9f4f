# jsPolicy: a verified model of its state machines

jsPolicy runs admission and controller policies written in JavaScript in a Kubernetes cluster. This project models the
parts of it whose correctness rests on state, merging and interleaving, and proves what they promise.

| file | what it models |
|---|---|
| GoStrings, Conditions | status conditions, their lists and their display order |
| ConditionPatch, PatchLaws | diffing two condition lists and replaying the diff on a third: a per-type three-way merge, its round trip and its commutation laws |
| PatchWriters | any number of controllers patching one object under an optimistic lock |
| Summary, SummaryTimes | the Ready condition as a summary of the others |
| Gvks | the kinds a controller policy watches |
| InformersMap, PolicyManager | the shared informers, and the manager that keeps policies, event handlers and informers in step |
| Reconciler | one reconciliation of a JsPolicy |
| ReconcilerLaws, ControllerLaws, ControllerRuns, FixpointLaws | what its status promises over whole runs |
| ManagerAnswers | what the manager's answers mean to the reconciler |
| Webhooks | the webhook configurations of a policy |
| WebhookLaws | what WebhookReady promises about them |
| VmPool | the pool of VMs, its semaphore and its stack |
| OptimisticUpdates, Reports | policy reports and the violations log under concurrent requests |
| FieldIndex | listing by field from the cache |

Code that changes state step by step is written as classes and methods with loops, each proved against a specification
function or a property; the main results are lemmas about those functions and about every run of the state machines
built from them. A schedule is any sequence of steps, and a step that is not possible in a state leaves the state alone.

`dafny verify dfyconfig.toml` checks everything.

## Where the code does less than one would expect

- The branch of `Reconcile` for a policy that does not compile makes the manager forget the policy but keeps the recorded
  hash (pkg/controllers/jspolicy.go:153-161). `RevertedPolicyIsStoppedForGood` with `StoppedControllersStayDown` show that
  a policy that was broken and reverted is ready in name and is not started again until its spec changes or the process
  restarts (`RestartRevives`).
- The hash is recorded before the start it stands for (pkg/controllers/jspolicy.go:359-361). When the start fails and the
  status patch that says so is lost, the next reconciliation takes the policy for running (`LostStartIsStoppedForGood`).
- Manager and recorded hashes live in memory, the status does not: between a restart and the next reconciliation
  ControllerReady=True means nothing, and `RepairedExactly` says when that reconciliation mends it.
- These three are the only steps that break the promise of ControllerReady in a consistent world (`PromiseBreaksExactly`),
  and `PromiseAfterReconcile` says what it means after a reconciliation in any world.
- The two patches of a reconciliation commit separately, so BundleCompiled and the hash beside it may come from different
  ones. `MatchEndsExactly` says which lost patches make the status vouch for the wrong bundle,
  `LostPatchBreaksTheVoucher` is a run that does.
- WebhookReady stays True when a bad bundle has its configurations deleted (`BrokenPolicyStaysWebhookReady`), and a policy
  retyped to Controller keeps both (`RetypedPolicyKeepsItsWebhooks`); `WebhookPromiseEndsExactly` says that nothing else
  but an edit not yet reconciled ends the promise.
- A bundle that somebody deletes is never rebuilt while the source stays the same, nor is one that never compiled
  (`MissingForGoodExactly`).
- A policy whose type changes from Controller keeps running (`WhenAControllerStops`).
- The phase lags one reconciliation behind Ready, and its reason then repeats the old one (`PhaseLagsExactly`,
  `ReasonAfterReconcile`, `TwoAreNotEnough`).
- `Start` stops its informers once, when its context ends; a reader that asks later gets a new informer that runs until
  somebody deletes it (`EndOfStartStopsEverything`, `LateInformersRunOn`).
- Without a namespace the index function overwrites the slice its extractor returned (`IndexFunc`, `KeysOfKeysDiffer`).

## Assumptions

- Times are opaque, and the clock is read per condition type: on a list without duplicates one patch touches each type
  once, so a function from types to times describes every sequence of readings.
- Hashing is injective. The bundler, the API server, the RESTMapper and the informer library answer arbitrarily; their
  answers are parameters. Where a result needs their answers to mean something, a relation says what: `Bundling` relates
  a source to its possible bundles, `Selecting` a selection to the kinds the manager derives from it.
- Laws about summaries and whole runs take conditions to carry a severity when False and none otherwise, as the API type
  demands; the reconciler's own lists do. The methods are proved without that.
- In the VM pool every holder puts its VM back once.
- Namespaces contain no slash and differ from the marker, as the API server enforces; what happens otherwise is proved.

## Model

| member | source | states |
|---|---|---|
| GoStrings.LessConnected | pkg/util/conditions/setter.go:160-163 | Go's byte-wise string order, which the display order uses for ties, compares any two different strings (with LessIrreflexive and LessTransitive: a strict total order) |
| GoStrings.LessAtFirstDifference | pkg/util/conditions/setter.go:160-163 | in that order the first difference decides, and a string comes before its continuations |
| Conditions.BeforeIsStrictTotalOrder | pkg/util/conditions/setter.go:160-163 | `lexicographicLess` puts Ready before every other type, follows Go's string order otherwise, and is a strict total order on condition types |
| Conditions.SortIsTheOnlySortedPermutation | pkg/util/conditions/setter.go:68-73 | on lists without duplicate types there is exactly one sorted permutation, so any sort gives the model's list |
| Conditions.SortIsAPermutation | pkg/util/conditions/setter.go:68-73 | on any list sorting loses and invents nothing and yields the display order |
| Conditions.SameLookupsSameList | pkg/util/conditions/setter.go:37-74 | a sorted duplicate-free list is determined by its condition per type |
| Conditions.SetTouchesOneType | pkg/util/conditions/setter.go:37-74 | `Set` changes the condition of one type only, stamps it, and leaves the list sorted and duplicate-free |
| Conditions.SetMovesTheTime | pkg/util/conditions/setter.go:46-66 | the stored transition time: that of the call when status, severity, reason or message changed, the old one when none did, and for a new type the condition's own or, without one, that of the call |
| Conditions.SetSameStateIsNoop | pkg/util/conditions/setter.go:46-66 | setting a condition to the state it has changes nothing, transition time included |
| Conditions.DeleteTouchesOneType | pkg/util/conditions/setter.go:141-156 | `Delete` removes one type and keeps every other condition, the order and uniqueness |
| Conditions.Setter.Get | pkg/util/conditions/getter.go:34-46 | the scan returns the first condition of the type, or nothing |
| Conditions.Setter.Set | pkg/util/conditions/setter.go:37-74 | the scan, in-place update or append, and sort leave exactly the specified list; the pointed-to condition keeps its state and gets the time of the call exactly when the type had another state, the old time when it had this one |
| Conditions.Setter.Delete | pkg/util/conditions/setter.go:141-156 | the copy loop leaves exactly the conditions of other types |
| ConditionPatch.NewPatchIsPerTypeDiff | pkg/util/conditions/patch.go:49-77 | the diff has at most one operation per type, and it is the difference of the two conditions of that type |
| ConditionPatch.ApplyIsDecidedPerType | pkg/util/conditions/patch.go:114-192 | operations on distinct types: the patch fails if and only if some type clashes with the original latest list, names such a type, and otherwise yields per type the outcome computed from the original list, sorted and duplicate-free |
| ConditionPatch.ApplyRefinesThreeWayMerge | pkg/util/conditions/patch.go:114-192 | `NewPatch` followed by `Apply` is the per-type three-way merge of before, after and latest: same success, same conflicts, same list |
| ConditionPatch.MergeFailsExactly | pkg/util/conditions/patch.go:114-192 | the merge in words: it fails if and only if some type was changed by the writer, is neither owned nor forced, is not already as wanted, and was moved since it was read (a removal does not mind a moved time); otherwise unchanged types stay, changed ones end in the state wanted, and times move exactly where states do |
| ConditionPatch.ApplyMovesTimes | pkg/util/conditions/patch.go:114-192 | for any operations on distinct types: a type that was there and is still there shows the old time if its state is the same and the time of the operation otherwise; a new one its own time, if it has one |
| ConditionPatch.ThreeWayOfDiff | pkg/util/conditions/patch.go:114-192 | the Add, Change and Remove branches with ownership and force are exactly the cases of a three-way merge of one type |
| ConditionPatch.Patch.Apply | pkg/util/conditions/patch.go:114-192 | the loop over operations changes `latest` as specified, stops at the first conflict with its type, and rewrites the times of the patch's own conditions |
| ConditionPatch.ApplyOperation | pkg/util/conditions/patch.go:124-189 | one operation against `latest`: stored, kept, dropped, or refused without changing anything |
| ConditionPatch.NewPatch | pkg/util/conditions/patch.go:49-77 | the two loops build the specified list of operations |
| PatchLaws.OperationOrderIsIrrelevant | pkg/util/conditions/patch.go:114-192 | the same operations in another order, at other times, succeed alike and give the same list up to transition times |
| PatchLaws.DisjointPatchesCommute | pkg/util/conditions/patch.go:114-192 | two patches on disjoint types: both orders succeed or both fail on any list, with the same result up to transition times |
| PatchLaws.RoundTrip | pkg/util/conditions/patch.go:49-77 | replaying a diff on the list it started from never fails and yields after's states; unchanged states keep their time |
| PatchLaws.RoundTripOfSortedLists | pkg/util/conditions/patch.go:49-77 | on sorted lists the replay gives `after` itself up to times, and `before` itself when nothing changed |
| PatchLaws.SecondApplyChangesNothing | pkg/util/conditions/patch.go:114-192 | applying the patch again, with the times the first run wrote into it, succeeds and changes nothing |
| PatchLaws.CallerSeesWhatWasStored | pkg/util/conditions/patch.go:124-189 | after the patch ran, the object it was made from shows exactly what was stored of each type, transition time included, and is as before elsewhere |
| PatchWriters.StepKeepsInv | pkg/util/patch/helper.go:176-249 | every step of any writer keeps: every version has an explanation and every writer a valid position in the retry loop |
| PatchWriters.EveryCommitMergesWithItsPredecessor | pkg/util/patch/helper.go:214-249 | each committed version is exactly one writer's `Apply` of its own diff, up to the times earlier attempts wrote into it, to the version just before it, and hence their three-way merge, with times that move exactly where states do; a writer commits once |
| PatchWriters.NoUpdateIsLost | pkg/util/patch/helper.go:214-249 | what a version says about a type stays, time included, until a writer that changes that type commits |
| PatchWriters.AttemptsAreBounded | pkg/util/patch/helper.go:207-214 | a writer reads before each send and sends at most five times |
| PatchWriters.CurrentWriterCommits | pkg/util/patch/helper.go:220-249 | a writer that reads the current version and is not disturbed commits its merge |
| PatchWriters.WritersBegin | pkg/util/patch/helper.go:176-205 | a call that changes some type goes on to read, one that changes none is done at once |
| PatchWriters.OutdatedWriterRetries | pkg/util/patch/helper.go:207-249 | a send on an outdated version commits nothing; the writer reads again before its fifth attempt and fails after it |
| PatchWriters.ConflictingWriterFails | pkg/util/patch/helper.go:229-232 | a writer that must not merge some type fails and sends nothing |
| PatchWriters.ClientErrorsAreFinal | pkg/util/patch/helper.go:220-248 | after any other client error a writer that has not committed never does, whatever follows |
| PatchWriters.AttemptPatch | pkg/util/patch/helper.go:214-248 | one run of the closure: a merge conflict if some type must not merge, otherwise a commit, an error or another attempt as the reply says |
| PatchWriters.PatchStatusConditions | pkg/util/patch/helper.go:176-249 | the retry loop: nothing to do, at most five attempts, retries only on conflicts, and the last attempt's outcome is reported |
| Summary.MergeShowsTheWorst | pkg/util/conditions/merge.go:49-66 | `merge` returns nothing exactly when nothing is in scope, otherwise the status and severity of a condition of minimal priority, with its reason and message unless it is True, which has none |
| Summary.ErrorsWin | pkg/util/conditions/merge.go:175-194 | the merged condition is False/Error exactly when some condition is; it is True exactly when none is False and one is True |
| Summary.WhoWins | pkg/util/conditions/merge.go:175-194 | on any list: False/Error wins over False/Warning, that over False/Info, then True, then Unknown; a condition that does not conform shows only when there is none of these |
| Summary.MergeIsOrderFree | pkg/util/conditions/merge.go:49-112 | for unique types the merged condition does not depend on the order of the list |
| Summary.SummaryIgnoresReady | pkg/util/conditions/getter.go:116-195 | Ready plays no part in its own summary |
| Summary.SetSummaryIsIdempotent | pkg/util/conditions/setter.go:122-124 | summarising twice, at any two times, is summarising once, transition times included |
| Summary.ReadyQuotesACondition | pkg/util/conditions/merge_strategies.go:136-165 | with messages free of '%', a Ready that is not True quotes a condition of minimal priority word for word |
| Summary.PreferredIsFirst | pkg/util/conditions/merge_strategies.go:144-165 | of a group the type that comes first in the order is shown, and its first condition only when none of the types is there |
| Summary.ReadyQuotesThePreferred | pkg/util/conditions/merge_strategies.go:136-165 | a Ready that is not True carries status, severity, reason and formatted message of that condition of minimal priority whose type comes first in the order |
| Summary.AddToGroups | pkg/util/conditions/merge.go:72-100 | one round of grouping keeps groups distinct, complete and exact |
| Summary.InsertGroup | pkg/util/conditions/merge.go:102-112 | inserting by priority keeps the order and loses nothing |
| Summary.GetConditionGroups | pkg/util/conditions/merge.go:69-112 | distinct groups by priority, each holding exactly the conditions with its key in list order, the first one sorted; every condition is in one |
| Summary.GetFirstCondition | pkg/util/conditions/merge_strategies.go:144-165 | the preferred type if there is one in the group, else the first condition |
| Summary.Merge | pkg/util/conditions/merge.go:49-66 | a group of minimal priority is summarised, on any list; on conforming conditions that is the specified merged condition |
| Summary.ReadySummary | pkg/util/conditions/getter.go:116-195 | the filtered scan followed by merge, on any list; on conforming conditions the specified summary |
| Summary.SetSummary | pkg/util/conditions/setter.go:122-124 | Ready is set to what `merge` may return, if anything; on conforming conditions the list is the specified one |
| SummaryTimes.SummaryIgnoresTimes | pkg/util/conditions/merge.go:49-112 | lists equal up to transition times have the same summary |
| Gvks.OneFirstMatchPerGroupKind | pkg/controller/manager.go:226-262 | every group-kind that matches has exactly one first match in resource and priority order |
| Gvks.SelectedKinds | pkg/controller/manager.go:226-262 | every candidate of an accepted group and version is represented, by a candidate of its own group and kind with an accepted version, and by no two |
| Gvks.AcceptsExactly | pkg/controller/manager.go:234-252 | an empty list and one with a star accept every group or version, another name only itself, and a longer list whatever its parts accept |
| Gvks.CandidatesConcat | pkg/controller/manager.go:212-231 | resources are asked in order and their kinds follow each other; the first resource that fails decides the error |
| Gvks.CandidatesOfOne | pkg/controller/manager.go:212-231 | one resource: the wildcard is refused, otherwise the mapper's kinds or its error |
| Gvks.CollectKinds | pkg/controller/manager.go:232-260 | the inner loop adds exactly the kinds that are the first match of their group-kind |
| Gvks.GvksFromPolicy | pkg/controller/manager.go:206-268 | exactly the first match of every matching group-kind, none twice; otherwise the error of the first resource that has one, or no kinds |
| Gvks.AreGVKsEqual | pkg/controller/manager.go:185-204 | same length and one-directional containment |
| Gvks.ContainmentIsEquality | pkg/controller/manager.go:185-204 | on lists without repeats that comparison is set equality, by counting |
| Gvks.RepeatsWouldFoolTheComparison | pkg/controller/manager.go:185-204 | with repeats it would call different sets equal |
| InformersMap.AddKeepsSound | pkg/cache/informers_map.go:221-262 | adding, or finding, an informer keeps the map sound, all other informers and the flag, and leaves exactly one mapped informer of the kind |
| InformersMap.RunKeepsInv | pkg/cache/informers_map.go:128-262 | in every interleaving of `Get`, `Delete` and one `Start` the map stays sound and every answer was once the mapped informer of its kind |
| InformersMap.InformersAreExclusive | pkg/cache/informers_map.go:128-262 | at most one open informer per kind; mapped exactly while the stop channel is open; no double close, no double run; after the start every mapped informer has run once |
| InformersMap.RacingCallersShareOneInformer | pkg/cache/informers_map.go:195-240 | two callers that both missed get the same informer, and only one is created |
| InformersMap.GetReturnsTheMappedInformer | pkg/cache/informers_map.go:195-262 | an undisturbed call returns the mapped informer of its kind, at once if there is one and otherwise a new one, running if the map is started |
| InformersMap.GetFailsExactly | pkg/cache/informers_map.go:195-240 | a call that cannot create its informer fails and leaves no trace; one whose wait is cut short fails and leaves the informer in the map |
| InformersMap.StartAndDelete | pkg/cache/informers_map.go:128-193 | the start runs every mapped informer; a deletion unmaps one kind and closes its informer and no other |
| InformersMap.EndOfStartStopsEverything | pkg/cache/informers_map.go:146-156 | in every run, when the context of `Start` ends the map is empty and every informer ever created is closed once, kinds and runs unchanged, and none of them is mapped, run or closed again in any continuation |
| InformersMap.LateInformersRunOn | pkg/cache/informers_map.go:146-156 | an informer created after that runs at once and stays open in every continuation that does not delete it |
| InformersMap.SpecificInformersMap.Get | pkg/cache/informers_map.go:195-219 | look up, add under the lock, wait for the sync once started: the new state and the mapped informer; an error exactly when the kind cannot be had or the wait is cut short, which leaves the informer in the map |
| InformersMap.SpecificInformersMap.AddInformerToMap | pkg/cache/informers_map.go:221-262 | double-checked insertion, run at once when started |
| InformersMap.SpecificInformersMap.Delete | pkg/cache/informers_map.go:179-193 | closes the channel of the mapped informer and removes the entry |
| InformersMap.SpecificInformersMap.StartMapped | pkg/cache/informers_map.go:128-145 | runs exactly the mapped informers, sets `started` and keeps the map |
| InformersMap.SpecificInformersMap.StopMapped | pkg/cache/informers_map.go:146-156 | empties the map and closes every informer that was open; kinds, runs and the flag stay |
| InformersMap.InformerCache.Use | pkg/cache/cache.go:93-137 | a read of a started cache that gets its informer in time marks the kind as used, and no other read does; an informer it created stays in any case |
| InformersMap.InformerCache.GarbageCollectInformers | pkg/cache/cache.go:72-91 | exactly the kinds that are not excluded and were last used more than the clean-up time ago lose informer and clock entry |
| Manager.Handler.RemovePolicy | pkg/controller/handler.go:34-46 | the rebuilt slice holds exactly the controllers of other policies, in order |
| Manager.HandlersKeepOrder | pkg/controller/handler.go:34-88 | removal and delivery keep the order in which policies were added |
| Manager.RegisterKeepsRegistered | pkg/controller/manager.go:129-152 | handing a new controller to the handlers of its kinds keeps: each handler holds exactly the registered policies that watch its kind, each once |
| Manager.UnregisterKeepsRegistered | pkg/controller/manager.go:277-293 | removing a policy from every handler keeps it, too |
| Manager.AttachKeepsWired | pkg/controller/manager.go:107-127 | attaching a new handler to the (possibly new) informer of its kind keeps every mapped handler on the current, open informer of its kind |
| Manager.CollectKeepsWired | pkg/controller/manager.go:59-75 | dropping handlers without policies and stopping informers of kinds that lost their handler keeps the wiring; what stays attached has no policies |
| Manager.PolicyManager.constructor | pkg/controller/manager.go:46-57 | the empty manager meets the invariant |
| Manager.PolicyManager.EnsureHandlers | pkg/controller/manager.go:107-127 | the first loop of `addNoLock`: nothing but empty handlers come in, also when it ends half-way, which it does if and only if some kind had no handler and its informer could not be had |
| Manager.PolicyManager.AddNoLock | pkg/controller/manager.go:105-152 | keeps the invariant; registers the policy if and only if every kind had a handler or an informer could be had for it, and otherwise leaves the registrations alone and names such a kind |
| Manager.PolicyManager.DeleteNoLock | pkg/controller/manager.go:277-293 | keeps the invariant; the policy and nothing else is gone |
| Manager.PolicyManager.Update | pkg/controller/manager.go:154-183 | keeps the invariant; the policy ends up watching the first match of every selected group-kind, is registered anew if and only if that set changed, and no other policy is touched; it succeeds if and only if something is selected and the set is unchanged and re-queued without error, or changed and every kind can be watched; each error is the one the source gives |
| Manager.PolicyManager.Delete | pkg/controller/manager.go:270-275 | keeps the invariant; the policy and nothing else is gone |
| Manager.PolicyManager.GarbageCollectInformers | pkg/controller/manager.go:59-75 | keeps the invariant; exactly the handlers with policies stay, and exactly the informers without a handler that were last used more than the clean-up time ago go, with their clock entries |
| Manager.PolicyManager.Cleanup | pkg/controller/manager.go:87-103 | at shutdown nothing stays registered and exactly the expired informers go; the forgotten handlers stay attached, and they keep policies exactly when some handler had one |
| Manager.PolicyManager.CacheIsUsed | pkg/cache/cache.go:101-137 | readers that create informers behind the manager's back keep its invariant |
| Manager.EventsReachEachPolicyOnce | pkg/controller/handler.go:72-88 | an event on the current informer of a kind reaches every registered policy that watches it and whose object the client finds, exactly once, and nobody else; an event on a replaced informer reaches nobody |
| Manager.Handler.Add | pkg/controller/handler.go:72-88 | the loop hands the event to the policies whose object the client finds, in order |
| Reconciler.JsPolicyReconciler.Reconcile | pkg/controllers/jspolicy.go:85-185 | on any stored status, the whole reconciliation does to its policy's status, bundle, controller and recorded hash what the specification says, and touches no other policy; with odd severities the summary is one that `merge` may return |
| Reconciler.JsPolicyReconciler.DoWork | pkg/controllers/jspolicy.go:145-184 | the branches after the first reads, in order, with every early error return |
| Reconciler.JsPolicyReconciler.CompileBundle | pkg/controllers/jspolicy.go:230-303 | bundle, create or update, and the BundleCompiled condition |
| Reconciler.JsPolicyReconciler.SyncControllerPolicy | pkg/controllers/jspolicy.go:337-375 | hash recorded before the update, manager cleared and condition False when it fails |
| Reconciler.JsPolicyReconciler.ReconcilePhase | pkg/controllers/jspolicy.go:211-228 | Failed on an error or on the first False/Error condition, whose reason and message are copied |
| Reconciler.JsPolicyReconciler.PatchPolicy | pkg/controllers/jspolicy.go:187-209 | summary of any draft, diff and replay on the stored list, then the other status fields |
| Reconciler.WorkIsOrderly | pkg/controllers/jspolicy.go:145-184 | a reconciliation keeps the condition list sorted, duplicate-free and with severities only on False conditions |
| Reconciler.KeyChangesExactly | pkg/controllers/jspolicy.go:337-357 | a controller's recorded hash changes if and only if its selection, its source or, without javascript, its bundle does |
| ReconcilerLaws.OrderlySummarisesProper | pkg/controllers/jspolicy.go:145-208 | on the lists the reconciler itself writes every summary is the specified one |
| ReconcilerLaws.ReconcileView | pkg/controllers/jspolicy.go:85-209 | type by type and up to times, what is stored after a reconciliation, committed or not |
| ReconcilerLaws.PatchNeverConflicts | pkg/controllers/jspolicy.go:187-209 | the status patch of a reconciliation merges with any list other writers may have stored meanwhile: it changes only types the reconciler owns |
| ReconcilerLaws.NoticedDeletionForgets | pkg/controllers/jspolicy.go:91-104 | a deletion followed by a reconciliation leaves nothing known under the name but a bundle |
| ReconcilerLaws.NoJavascriptNoCompile | pkg/controllers/jspolicy.go:230-247 | a policy without javascript keeps its bundle, and BundleCompiled says whether there is one |
| ReconcilerLaws.CompileView | pkg/controllers/jspolicy.go:230-303 | the BundleCompiled condition after compiling, in each of the five cases |
| ReconcilerLaws.MatchAfterReconcile | pkg/controllers/jspolicy.go:128-144 | a reconciliation, committed or not, keeps status and bundle matching if and only if it loses no patch in one of the three ways in `Loses`: the hash of a new bundle, the False of a failed compile, or the hash of a source that was emptied |
| ReconcilerLaws.MatchEndsExactly | pkg/controllers/jspolicy.go:128-144 | where status and bundle match, exactly three kinds of steps end it: such a lost patch, a dropped bundle, and a bundle overwritten with one of another source |
| ReconcilerLaws.UndisturbedRunsMatch | pkg/controllers/jspolicy.go:128-144 | when every patch commits and nobody else touches bundles, no step of a run ends the match |
| ReconcilerLaws.StatusVouchesForBundle | pkg/controllers/jspolicy.go:128-144 | from any new world, in every run of edits, compile failures, storage errors, restarts and lost patches in which no step is one of `EndsTheMatch`: BundleCompiled=True with a hash means the stored bundle is a successful bundling of the source with that hash |
| ReconcilerLaws.LostPatchBreaksTheVoucher | pkg/controllers/jspolicy.go:128-144 | a run: compile a new policy, edit its source and lose the hash of the new bundle; BundleCompiled=True then vouches for the wrong source |
| ReconcilerLaws.BundleView | pkg/controllers/jspolicy.go:230-303 | bundle, BundleCompiled and stored hash after a reconciliation whose patches commit or not, from what there was before it |
| ReconcilerLaws.BundleAppearsExactly | pkg/controllers/jspolicy.go:230-261 | a missing bundle comes to exist if and only if there is a source that must be compiled, compiles and can be stored |
| ReconcilerLaws.MissingForGoodExactly | pkg/controllers/jspolicy.go:230-261 | a missing bundle stays missing over every sequence of reconciliations of the unchanged policy if and only if the policy has no source or was compiled before, well or not |
| ControllerLaws.ControllerView | pkg/controllers/jspolicy.go:153-176 | controller, recorded hash and ControllerReady after a reconciliation whose patches commit or not, from what there was before it |
| ControllerLaws.PromiseAfterReconcile | pkg/controllers/jspolicy.go:337-375 | in any world, whether or not patches commit: after a reconciliation ControllerReady=True means the manager runs the policy if and only if `KeepsPromise` held before it |
| ControllerLaws.PromiseBreaksExactly | pkg/controllers/jspolicy.go:141-176 | in a consistent world exactly three steps make ControllerReady=True a lie: a bad bundle whose webhooks could be deleted, a failed start whose patch is lost, and a restart |
| ControllerLaws.StepIsConsistentUnlessItBreaks | pkg/controllers/jspolicy.go:141-176 | a step keeps 'a recorded, not failed hash is being run' if and only if it is not one in `Breaks`: a bad bundle after a recorded hash, a failed start whose patch is lost, re-creation of a deleted policy that was recorded but not running, or a restart of a ready one |
| ControllerLaws.ReadyControllersRun | pkg/controllers/jspolicy.go:337-375 | in every run without such a step, lost patches included, ControllerReady=True means the manager runs the policy, for kinds that come from the selection the recorded hash covers |
| ControllerLaws.RepairedExactly | pkg/controllers/jspolicy.go:349-375 | after a restart a reconciliation, committed or not, restores consistency and promise if and only if it compares hashes or ControllerReady was not True; one that loses a failed start restores consistency only where ControllerReady was False, and the promise only where it was not True |
| ControllerLaws.WhenAControllerStops | pkg/controllers/jspolicy.go:145-184 | a running controller stops if and only if the bundle is bad or a changed policy fails to start; a change of type does not stop it |
| ControllerRuns.ConsistentExactlyWhenThePromiseIsSafe | pkg/controllers/jspolicy.go:337-375 | a world is consistent if and only if no run without a breaking step ever makes ControllerReady=True a lie |
| ControllerRuns.RecordedSpecBreaksThePromise | pkg/controllers/jspolicy.go:356-375 | a recorded hash that is neither failed nor run breaks the promise at the next reconciliation that compares it |
| ControllerRuns.NewPolicyRunsWell | pkg/controllers/jspolicy.go:337-375 | a new controller policy that compiles and starts runs well after two reconciliations |
| ControllerRuns.RevertedPolicyIsStoppedForGood | pkg/controllers/jspolicy.go:153-161 | breaking and reverting the source of a policy that runs well leaves it ready in name, recorded and not running |
| ControllerRuns.RecreatedPolicyIsStoppedForGood | pkg/controllers/jspolicy.go:91-104 | a run: a policy fails to start, is deleted and created again before the deletion is noticed, and is ready in name, recorded and not running |
| ControllerRuns.LostStartIsStoppedForGood | pkg/controllers/jspolicy.go:356-371 | a run: the first start of a new policy fails and the patch that says so is lost; the next reconciliation makes it ready in name, recorded and not running |
| ControllerRuns.StoppedControllersStayDown | pkg/controllers/jspolicy.go:356-371 | from there no number of reconciliations of the unchanged policy, whatever they are answered, starts it again while the process lives |
| ControllerRuns.RestartRevives | pkg/controllers/jspolicy.go:356-375 | after a restart the next reconciliation that can start it does |
| ManagerAnswers.StartController | pkg/controllers/jspolicy.go:358-366 | succeeds exactly when the update does; a success runs the policy for the first matches of its selection, and after a failure the manager does not know the policy |
| ManagerAnswers.ReadyControllersWatchTheirSelection | pkg/controllers/jspolicy.go:337-375 | end to end: in every run without a breaking step, lost patches included, a ready controller policy is run for exactly the first matches of the recorded selection |
| FixpointLaws.ThreeReconcilesReachAFixpoint | pkg/controllers/jspolicy.go:128-176 | for an unchanged policy and no client errors, three reconciliations reach a state that no further one changes, where Phase is Failed exactly when some condition is False/Error |
| FixpointLaws.TwoSufficeUnlessABundleIsMade | pkg/controllers/jspolicy.go:163-168 | two suffice unless the first one creates the bundle of a controller policy |
| FixpointLaws.PhaseAfterReconcile | pkg/controllers/jspolicy.go:211-228 | after any reconciliation whose status is stored, Phase is Failed if and only if the bundle could not be stored, a bad bundle's webhooks could not be deleted, the webhook sync failed, Ready was an error before, or another condition is going to be one, all seen from what there was before; otherwise Phase stays |
| FixpointLaws.FailsExactly | pkg/controllers/jspolicy.go:145-184 | a reconciliation ends in a client error if and only if it is one of the first three |
| FixpointLaws.ErrorsAfterReconcile | pkg/controllers/jspolicy.go:187-209 | whether the stored conditions show an error after any reconciliation, patched or not, from what there was before |
| FixpointLaws.PhaseLagsExactly | pkg/controllers/jspolicy.go:211-228 | after one error-free reconciliation the phase disagrees with the stored conditions if and only if Ready was an error before and nothing else is going to be one |
| FixpointLaws.ReasonAfterReconcile | pkg/controllers/jspolicy.go:211-228 | reason and message of the status: those of the old Ready if that was an error, otherwise of the first error in display order, otherwise none |
| FixpointLaws.ReadyNamesTheError | pkg/controllers/jspolicy.go:187-196 | a stored Ready quotes the controller's error before the webhook's and that before the bundle's |
| FixpointLaws.AtRestExactly | pkg/controllers/jspolicy.go:128-144 | for any well-formed policy: further error-free reconciliations change nothing if and only if bundle and deployment are settled, Ready is the summary of the other conditions, and phase, reason and message fit the stored list |
| FixpointLaws.TwoAreNotEnough | pkg/controllers/jspolicy.go:128-144 | a run from a new policy (failed start, dropped bundle, edited source) after which two error-free reconciliations leave a failure in the phase that no condition shows |
| FixpointLaws.SettledReconcile | pkg/controllers/jspolicy.go:211-228 | once nothing is left to do and Ready is current, a reconciliation updates the phase and changes nothing else |
| Webhooks.ListOwned | pkg/controllers/jspolicy.go:402-425 | the configurations of the policy, each once, in any order |
| Webhooks.DeleteFrom | pkg/controllers/jspolicy.go:406-412 | exactly the items before the first refused deletion go; it succeeds if and only if none is refused, and what may not be deleted stays |
| Webhooks.Sync | pkg/controllers/jspolicy.go:393-504 | on success exactly one configuration of the right kind with the wanted content, an existing name kept, none of the other kind; it ends early if and only if a list fails, a configuration of the wrong kind may not be deleted or more than one of the right kind is left, and then only the policy's own were deleted; what may not be deleted stays; otherwise the apply decides; a second run adds and deletes nothing |
| Webhooks.Webhooks.SyncWebhook | pkg/controllers/jspolicy.go:393-504 | the same for both kinds, controller policies left alone, other policies' configurations untouched unless the new name hits one |
| Webhooks.Webhooks.DeletePolicyWebhooks | pkg/controllers/jspolicy.go:305-335 | succeeds if and only if both lists and every deletion do, and then none of either kind is left; never anything but the policy's own goes, nothing that may not be deleted, and nothing of the second kind after a failure with the first |
| Webhooks.SyncingOthersKeepsInSync | pkg/controllers/jspolicy.go:393-504 | a policy in sync stays so while another one is synced or cleaned up |
| Webhooks.GeneratedNameHitsNoPolicy | pkg/controllers/jspolicy.go:506-525 | a name generated for a policy without configurations can only hit one that no policy owns |
| WebhookLaws.WebhookView | pkg/controllers/jspolicy.go:153-176 | what WebhookReady says after a reconciliation: whether the sync succeeded if it got that far and its patch committed, otherwise what it said before |
| WebhookLaws.WebhookPromiseAfterReconcile | pkg/controllers/jspolicy.go:393-504 | in any cluster: after a reconciliation WebhookReady=True means the policy has the one configuration it asks for and none of the other kind, if and only if the sync decided it, or it was not True, or what is left is right |
| WebhookLaws.WebhookPromiseEndsExactly | pkg/controllers/jspolicy.go:153-176 | where that holds, exactly two steps end it: an edit of kind or content, until it is reconciled, and a bad bundle for which the configuration was deleted; a failed sync does not, because it leaves a configuration that is in sync alone |
| WebhookLaws.RetypedPolicyKeepsItsWebhooks | pkg/controllers/jspolicy.go:164-176 | a webhook policy retyped to a controller policy keeps its configurations and WebhookReady=True over every further reconciliation |
| WebhookLaws.BrokenPolicyStaysWebhookReady | pkg/controllers/jspolicy.go:153-161 | a run: a synced policy is edited into a source that does not compile; its configurations are gone and WebhookReady is still True |
| VmPool.Stack.Push | pkg/vm/vmpool/vmpool.go:72-77 | adds on top |
| VmPool.Stack.Pop | pkg/vm/vmpool/vmpool.go:79-91 | takes the top, or nil when empty |
| VmPool.Pool.NewVMPool | pkg/vm/vmpool/vmpool.go:20-35 | as many distinct creations as permits, or no pool when one fails |
| VmPool.Pool.Get | pkg/vm/vmpool/vmpool.go:37-49 | undisturbed: a free permit and the top VM, even when the context is done; without a permit it waits, or returns nil when the context is done |
| VmPool.Pool.Put | pkg/vm/vmpool/vmpool.go:51-65 | undisturbed: the VM and its permit come back together, or go together when the reset fails |
| VmPool.NobodyPanics | pkg/vm/vmpool/vmpool.go:37-49 | in every interleaving a caller with a permit finds a VM |
| VmPool.VMsAreExclusive | pkg/vm/vmpool/vmpool.go:37-65 | no VM is in two places: a held one is held by nobody else, not on the stack and not lost |
| VmPool.StackMatchesPermits | pkg/vm/vmpool/vmpool.go:37-65 | stacked VMs = free permits + acquired but not popped + pushed but not released, and with the held and lost ones they make up the pool |
| VmPool.QuietPoolIsWhole | pkg/vm/vmpool/vmpool.go:51-65 | when all are done, as many VMs and permits are missing as resets failed in the run, and the rest is back |
| VmPool.UndisturbedGet | pkg/vm/vmpool/vmpool.go:37-49 | the two halves of `Get` with nobody in between take one permit and the top of the stack |
| VmPool.UndisturbedPut | pkg/vm/vmpool/vmpool.go:51-65 | the parts of `Put` with nobody in between bring VM and permit back, or lose the VM and keep its permit when the reset fails |
| VmPool.FailedResetsLose | pkg/vm/vmpool/vmpool.go:51-65 | in every run exactly the failed resets lose a VM |
| OptimisticUpdates.EveryCommitAppliesOneRequest | pkg/webhook/report.go:215-240 | in every interleaving with stale reads, conflicts, deletions and re-creation, a committed version is one request applied to the version just before it, and no request commits twice |
| OptimisticUpdates.UpdatesAreBounded | pkg/webhook/report.go:215-240 | a request that counts down updates at most as often as it may retry |
| OptimisticUpdates.CurrentRequestCommits | pkg/webhook/report.go:215-240 | a request that reads the current version and is not disturbed commits its change of it |
| OptimisticUpdates.ConflictsRetry | pkg/webhook/report.go:226-233 | a conflict changes nothing but the request, which reads again unless it counts down and this was its last try |
| OptimisticUpdates.VersionsAreWindows | pkg/webhook/report.go:92-114 | when requests append and keep a tail, every version is a suffix of everything committed |
| Reports.PolicyReport.Record | pkg/webhook/report.go:92-132 | append, drop the oldest, move the counters; a consistent report stays consistent |
| Reports.TallySlide | pkg/webhook/report.go:98-129 | one increment and at most one decrement give the counts of the new window |
| Reports.ReportsStayConsistent | pkg/webhook/report.go:92-132 | starting from a consistent report, every committed report's summary counts its results and its length is at most the larger of the limit and the initial length |
| Reports.ReportUpdatesAreBounded | pkg/webhook/report.go:41-46 | a report request makes at most `retryCounter` update calls |
| Reports.ReportRequestsGiveUp | pkg/webhook/report.go:226-233 | each conflict costs a report request one retry, and the last one ends it |
| Reports.ReportsAreWindows | pkg/webhook/report.go:92-114 | a report is a window over the entries committed so far: none lost in between, none reordered |
| Reports.CommittedEntryIsLast | pkg/webhook/report.go:92-114 | a committed request that keeps at least one entry leaves its own at the end, and the report grows by one unless it is full, when its length stays |
| Reports.StatusFor | pkg/webhook/report.go:242-265 | controller policies pass, denials and the default fail, warnings warn, everything else is skipped |
| Reports.LogSize | pkg/webhook/audit.go:64-68 | the size asked for when it is between 0 and 39, otherwise 20 |
| Reports.Violations.Log | pkg/webhook/audit.go:70-79 | append and keep exactly as many of the last ones as the size allows; the new violation is last unless the size is 0 |
| Reports.LogIsASuffix | pkg/webhook/audit.go:64-91 | the log is always a suffix of the committed violations, even as the size asked for changes |
| Reports.LogIsBounded | pkg/webhook/audit.go:64-79 | after a commit the log is one longer than its predecessor or as long as that request's size allows, below 40 |
| Reports.LogRequestsKeepTrying | pkg/webhook/audit.go:82-89 | a conflict never makes a violation be dropped: its request reads again with its retry counter unchanged |
| FieldIndex.KeysCollideExactly | pkg/cache/cache_reader.go:183-192 | two namespaces share an index key if and only if they are the same to the index or one continues the other after a slash |
| FieldIndex.KeysAreInjective | pkg/cache/cache_reader.go:183-192 | for slash-free namespaces other than the marker, a key determines namespace and value |
| FieldIndex.IndexFunc | pkg/cache/cache.go:206-227 | the index function's loop: the specified keys, in the extractor's own slice when there is no namespace and in a new one otherwise |
| FieldIndex.KeysOfKeysDiffer | pkg/cache/cache.go:208-214 | why extractors must return a new slice each time |
| FieldIndex.KeyIsIndexed | pkg/cache/cache.go:195-232 | an object is indexed under a listing key if and only if it has the value and is in the namespace listed |
| FieldIndex.RequiresExactMatch | pkg/cache/cache_reader.go:164-174 | exactly one requirement with an equality operator |
| FieldIndex.CacheReader.IndexAgreesWithScan | pkg/cache/cache_reader.go:107-116 | an index lookup finds exactly what a scan by namespace and value finds |
| FieldIndex.CacheReader.List | pkg/cache/cache_reader.go:97-150 | a list returns exactly the objects a full scan by namespace, field and labels keeps, each once; errors exactly for non-exact selectors and unknown fields |
| FieldIndex.SlashesConfuseTheIndex | pkg/cache/cache_reader.go:183-192 | with a slash in a namespace the index answers for the wrong one |

## Left out

- Condition lists with several conditions of one type: `sort.Slice` is not stable, so the code does not determine their order; the merge and order laws are about lists without duplicates, which every list the setter writes is.
- `aggregate`, `mirror`, step counters, source references and fallback values (pkg/util/conditions/getter.go, pkg/util/conditions/merge_strategies.go): options `SetSummary` is never called with here.
- `time.Now()` jumping within one operation, and the in-memory representation that `reflect.DeepEqual` sees of a time: a transition time is one opaque value.
- `Helper.Patch` for spec and metadata, and `ObservedGeneration` (pkg/util/patch/helper.go:144-170): merge patches computed in a library.
- Cancelling the contexts of controllers (pkg/controller/manager.go:91-93, 288-290): whether a stopped controller still works off what reached it.
- The work a policy controller does with an event after it was delivered (pkg/controller/policy.go), and the re-queuing of all objects, which appears as an error that `Update` may return.
- How long an informer takes to sync (pkg/cache/informers_map.go:158-219): a wait for it succeeds or is cut short.
- `Manager.PolicyManager.GarbageCollectInformers`: a concurrent reader that loads an informer just before it is stopped is not modelled; a read is one step of `CacheIsUsed`.
- Spec edits that arrive between the read and the patch of one reconciliation: the patch writes only the status, so they are taken to come after it. Client errors before the deferred patch is set up leave everything unchanged and are not steps.
- A garbage collector that removes the bundle of a deleted policy only after a policy of the same name was created.
- Reconciler.JsPolicyReconciler.Reconcile: webhook configurations enter as the outcome of the sync; what a sync does to them is proved in `Webhooks`, and `WebhookLaws` puts the two together for one policy. Configurations that others change or delete are not steps there.
- The fields of a webhook configuration and their defaults (pkg/controllers/jspolicy.go:506-708): one-branch facts, content is one value here.
- `apply.Apply` is create-or-overwrite; its three-way merge is computed in a library.
- Which responses are reported at all: allowed ones and policies that skip auditing are not (pkg/webhook/report.go:40-41, pkg/webhook/audit.go:19-20).
- Report timestamps and result payloads (pkg/webhook/report.go:280-331): payload is one value that a retry repeats.
- OptimisticUpdates.UpdatesAreBounded: does not bound the reads and creations of a request that a stale cache keeps telling the report does not exist, and does not apply to the violations log, whose retries do not count down (pkg/webhook/audit.go:86-88).
- VmPool: fairness of the semaphore, what a VM executes, and a holder that puts a VM back twice.
- Webhooks.Webhooks.SyncWebhook: the random suffix of a new name is a parameter; that it hits no configuration nobody owns is a condition of its last clause, not proved.
- FieldIndex.CacheReader.List: the store's maintenance of its indices is the library's; a list is made of the objects themselves, not of deep copies.
- Resource-version comparison in pkg/blockingcacheclient/client.go: cache visibility is arbitrary in every model that reads from a cache.
- HTTP serving, admission decoding, V8, npm, certificates, leader election, metrics and logging.
