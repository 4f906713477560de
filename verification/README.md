# VelaUX, verified

A Dafny model of the parts of VelaUX that decide something: which components of an application may
wait on each other, what an environment's workflow becomes when its delivery targets change, what a
query string round-trips, who may do what, when a token is refreshed, and which of two forms of the
same answer a screen shows. Each part follows one source file, in that file's own form: code that
updates objects, maps and lists is a class or a method with loops, proved against a specification
whose properties are then proved for all inputs or all runs.

| file | models |
|---|---|
| `Walks`, `ComponentDependencies`, `ComponentService` | the waits-on graph of an application, the depth-first search with its shared `seen` names, and the create, update and delete of components |
| `Slices`, `WorkflowModel`, `WorkflowComparison`, `WorkflowCoverage`, `WorkflowPolicies`, `WorkflowReconciliation` | reconciling an environment's stored workflow with the generated one, on shared step and policy objects |
| `WorkflowRecords`, `WorkflowNamesakes`, `WorkflowLosses`, `WorkflowReread`, `WorkflowTwice`, `WorkflowGrowth` | which policy records such an update leaves stored and which steps it writes again, updates that lose one, and reading the written workflow back |
| `PercentCoding`, `QueryString`, `LocationService` | percent-encoding of UTF-8 (section 2.1 of RFC 3986), the query-string printer and parser, and the partial update of the location |
| `Permissions` | resource names, their pattern order, and the deny-over-allow check |
| `TokenRefresh` | the response interceptor as a state machine over its asynchronous steps |
| `ExpiringCache` | the in-memory cache and its sweeper, interleaved |
| `UISchema` | patching a generated form schema with a custom one |
| `ApplicationStatus` | the batched status reading against the one-by-one reading, and the health summary |
| `DefinitionPicker` | the definitions a project's picker lists against a single lookup |
| `Environments` | environments and the targets they own |
| `ReportChart` | chart aggregation |

`dafny verify dfyconfig.toml` checks the whole project.

## Findings

Where a property one would expect turns out false of the code, the code is kept as it is, a lemma or
a run shows an input where it fails, and another lemma says when it holds.

- The component check follows one owner per output, whichever the map iteration visited last. With
  two components offering the output a third consumes, an accepted run can end in a cycle
  (`ComponentService.TwoOwnersHideACycle`). The search sees every wait exactly when no consumed
  output has two owners (`ComponentDependencies.SearchSeesEveryWaitIff`). For the graph to stay
  acyclic that is sufficient (`ComponentService.RunsStayAcyclic`) and not necessary: a second owner
  does no harm where it closes no cycle.
- A target that is stored twice and still generated is dropped (`WorkflowCoverage.CompareStoredTwice`);
  unless a placed step happens to carry it, it is not deployed to any more
  (`WorkflowCoverage.StoredTwiceIsLostIff`). Each generated
  target is deployed to once exactly under the condition of `WorkflowCoverage.CoversEachOnceIff`,
  which for steps placed as a whole is that none is stored twice and no missing one is generated
  twice (`WorkflowCoverage.WholeStepsCoverIff`).
- A policy without targets is deleted, or created anew, by every comparison
  (`WorkflowCoverage.CompareWithoutTargets`); comparing again keeps everything exactly when every
  policy has a target (`WorkflowCoverage.ComparingAgainKeepsAll`).
- When the only target of a cloud-resource step is replaced, its env-binding policy is deleted and
  then only updated: the written step names a policy that is no longer stored
  (`WorkflowLosses.ReplaceOnlyTarget`). Where a cloud-resource step is stored, such a policy is lost
  exactly when some step drops it and nothing holds on to it
  (`WorkflowRecords.EnvBindingLostIff`). The next update does not find the step's policy, takes
  the step for a new one, and stores the policy again (`WorkflowLosses.RestoreOnNextUpdate`).
- Creating records stops at one that exists and takes back those created before it. If a deploy step
  was removed by hand and its policy record stayed, the next update brings the step back, meets the
  record, and stores none of the other new policies, though written steps name them
  (`WorkflowLosses.BringBackRemovedStep`). When a policy is stored afterwards is
  `WorkflowRecords.PolicyStoredIff`, and which written policies are at risk
  `WorkflowRecords.EveryNamedStoredIff`.
- Steps are written from the last one stored under their name. If a stored step has the name of a
  target that is added later, one update writes both steps, and the next keeps both and writes the
  generated one twice: the stored step is gone though it was marked kept
  (`WorkflowTwice.OverwriteNamesake`). Where everything is kept, the workflow is written back as it
  is exactly when every step takes part and steps of one name are alike
  (`WorkflowNamesakes.KeptWrittenBackIff`), and an update leaves steps of one name alike exactly when
  it places none with the name of an unlike step it writes again
  (`WorkflowNamesakes.StaysOnePerNameIff`).
- A stored step that does not take part, such as a cloud-resource step whose policy is not stored or
  a deploy step that cannot be read, is dropped by every update
  (`WorkflowNamesakes.StoredWrittenIff`).
- A deploy step can lose the record of a topology policy it keeps: a cloud-resource step whose policy
  and environment join to that policy's name shares it and may drop it
  (`WorkflowLosses.DropSharedPolicy`). That is the only way two steps disagree on a topology policy
  (`WorkflowLosses.DisagreementIsCoincidence`); its record is deleted exactly when some step drops it
  (`WorkflowRecords.TopologyDeletedIff`).
- A query map survives printing and parsing exactly when each value is one a parse can produce
  (`QueryString.RoundTripIff`): a list of one item, a text `"true"`, a number or a null does not
  (`QueryString.NotEverythingSurvives`).
- If the token just obtained is refused at once, the initiator's replay queues behind itself:
  `isRefreshing` stays true and nothing queued is ever retried (`TokenRefresh.DeadlockReachable`,
  `TokenRefresh.RetryPossibleIff`).
- A value put while the sweeper is at its key is lost while fresh
  (`ExpiringCache.FreshValueCanBeLost`, `ExpiringCache.SweeperInvisibleIff`).
- The batched status reading also reports an environment of another project, which the one-by-one
  reading does not (`ApplicationStatus.ForeignEnvironmentReported`); they agree exactly under the
  condition of `ApplicationStatus.BatchAgreesIff`.
- The workflow phase shown beside the worst health is that of the first environment having it, so
  two orders of the same environments can show different phases
  (`ApplicationStatus.WorkflowDependsOnOrder`); every order shows the same phase exactly when all
  environments of the worst health are at the same phase
  (`ApplicationStatus.WorkflowIgnoresOrderIff`). Health and counts never depend on the order
  (`ApplicationStatus.SummaryIgnoresOrder`).
- Asking for permissions in a project named like an inherited object property, such as
  `constructor`, throws (`Permissions.InheritedNameThrows`) unless a platform permission denies first
  (`Permissions.CheckPermission`).

## Model

| member | source | states |
|---|---|---|
| `ComponentDependencies.DependsOnPath` | pkg/server/domain/service/application.go:1533-1549 | the search ends on every finite graph; a path it returns is a walk along edges from one of the start names to the target; it returns none exactly when the target is unreachable; with names already seen, every newly seen name leads only to seen names other than the target |
| `ComponentDependencies.WaitsOnIff` | pkg/server/domain/service/application.go:1512-1526 | a component waits on what it names and on every component that offers what it takes, and on nothing else |
| `ComponentDependencies.SingleOwnerSeesAll` | pkg/server/domain/service/application.go:1512-1526 | where no consumed output has two owners, the searched graph is the full waits-on graph, whichever owner map the visiting order built |
| `ComponentDependencies.SearchSeesEveryWaitIff` | pkg/server/domain/service/application.go:1512-1526 | every owner map yields all data waits if and only if no consumed output has two owners |
| `Walks.NewCyclesPassThroughEdited` | pkg/server/domain/service/application.go:1527-1530 | if an acyclic graph only gains edges into or out of one name, it stays acyclic exactly when no cycle passes through that name |
| `ComponentService.CollectOwners` | pkg/server/domain/service/application.go:1512-1517 | every offered output gets an owner that offers it |
| `ComponentService.CollectEdges` | pkg/server/domain/service/application.go:1518-1526 | the edges are the declared dependencies and the inputs fed by an owned output, and no others |
| `ComponentService.CheckDependsOn` | pkg/server/domain/service/application.go:1489-1531 | self-dependency, then unknown names, then exactly the cycles through the edited component are refused, and a refusal for a cycle names one |
| `ComponentService.ApplicationComponents.CreateComponent` | pkg/server/domain/service/application.go:1376-1447 | the whole new store and the answer, in the order of the source's refusals; the component stays where the workflow update that follows fails |
| `ComponentService.ApplicationComponents.UpdateComponent` | pkg/server/domain/service/application.go:1343-1374 | each given field is taken over and no other; new dependencies are checked with known names only; inputs and outputs stay; a refused update stores nothing |
| `ComponentService.ApplicationComponents.DeleteComponent` | pkg/server/domain/service/application.go:1573-1588 | the main component is never deleted, an absent one is reported, any other goes and nothing else changes, also where the workflow update that follows fails |
| `ComponentService.CreateStores` | pkg/server/domain/service/application.go:1376-1447 | a created component is stored as given beside the others unchanged, and waits on what it names |
| `ComponentService.UpdateTakesOver` | pkg/server/domain/service/application.go:1343-1374 | field by field, the given value or the old one; requested dependencies are stored, inputs, outputs and other components stay |
| `ComponentService.UpdateChecksRequest` | pkg/server/domain/service/application.go:1350-1356 | what is checked and may be refused are the requested dependencies with the stored inputs and outputs |
| `ComponentService.UpdateWaits` | pkg/server/domain/service/application.go:1350-1356 | an accepted update waits on every component it asked for, each stored and none itself |
| `ComponentService.MainStays` | pkg/server/domain/service/application.go:1573-1576 | over every run a main component once stored stays |
| `ComponentService.EditTouchesOnlyName` | pkg/server/domain/service/application.go:1499-1504 | an edit that keeps a component's outputs only adds waits into or out of that component |
| `ComponentService.LocalSearchDecidesGlobally` | pkg/server/domain/service/application.go:1483-1531 | searching only for a way back to the edited component accepts exactly the edits after which the whole graph is acyclic, where no consumed output has two owners, the graph was acyclic and required names exist |
| `ComponentService.DeletionOnlyRemovesWaits` | pkg/server/domain/service/application.go:1573-1588 | deleting a component adds no wait |
| `ComponentService.StepStaysAcyclic` | pkg/server/domain/service/application.go:1343-1588 | each create, update or delete keeps the full graph acyclic where no consumed output has two owners |
| `ComponentService.RunsStayAcyclic` | pkg/server/domain/service/application.go:1343-1588 | over every run from an empty application, in every state the full graph is acyclic, where no state has a consumed output with two owners |
| `ComponentService.TwoOwnersHideACycle` | pkg/server/domain/service/application.go:1512-1517 | a run with two owners of one output that is accepted step by step and ends in a cycle |
| `Slices.SliceIncludeSlice` | pkg/server/utils/strings.go:34-44 | true exactly when every item of the second slice is in the first, the shortcut for equal slices included |
| `Slices.ThreeWaySliceCompare` | pkg/server/utils/strings.go:47-70 | the three results are sorted; the common items come once each; common and left-only items together are a permutation of the first slice; the right-only items are the difference, once each |
| `Slices.BeforeIff` | pkg/server/utils/strings.go:66-68 | a text sorts before another that it begins, or that is greater where they first differ |
| `WorkflowComparison.CompareWorkflowSteps` | pkg/server/domain/repository/workflow.go:271-338 | the state of every stored and generated step and policy, and the order of the assembled steps, in terms of the targets gone and added |
| `WorkflowComparison.MarkOldSteps` | pkg/server/domain/repository/workflow.go:298-317 | which shared policies and which steps are marked deleted or modified, over all steps that hold them |
| `WorkflowComparison.MarkNewSteps` | pkg/server/domain/repository/workflow.go:318-336 | which generated policies are new or updated, and where each generated step is placed |
| `WorkflowComparison.NeededTargets` | pkg/server/domain/repository/workflow.go:283-294 | the targets to delete are those no longer generated or stored more than once; those to add are generated and not stored |
| `WorkflowComparison.AssembledParts` | pkg/server/domain/repository/workflow.go:318-337 | new cloud-resource steps precede all stored steps, the stored steps keep their order, other new steps follow them all |
| `WorkflowCoverage.LeftIsWithoutIff` | pkg/server/domain/repository/workflow.go:298-313 | a stored step goes on with exactly the policies not dropped there if and only if, when modified, it holds no policy that only another step drops |
| `WorkflowCoverage.StoredGiveUpGoneIff` | pkg/server/domain/repository/workflow.go:298-317 | for all stored steps and policies: they give up exactly the targets that are gone if and only if every policy is gone as a whole or not at all and steps lose only what they drop |
| `WorkflowCoverage.DeployedCount` | pkg/server/domain/repository/workflow.go:271-338 | where the stored steps give up exactly what is gone: how often each target is deployed to afterwards, for any generated steps |
| `WorkflowCoverage.CoversEachOnceIff` | pkg/server/domain/repository/workflow.go:271-338 | under that condition, each generated target exactly once and no other, if and only if the placed steps hold no generated target that is stored once and every other generated target once |
| `WorkflowCoverage.WholeStepsCoverIff` | pkg/server/domain/repository/workflow.go:271-338 | where generated steps are placed as a whole: exactly when no generated target is stored twice and no missing one is generated twice |
| `WorkflowCoverage.SingleTargetsAreClean` | pkg/server/domain/repository/workflow.go:298-313 | stored policies of one target each meet the condition, unless a step of several policies shares one with a step of the other kind of target |
| `WorkflowCoverage.SingleTargetsArePlacedWhole` | pkg/server/domain/repository/workflow.go:318-336 | generated steps of one policy with one target are placed as a whole |
| `WorkflowCoverage.DistinctTargetsCovered` | pkg/server/domain/repository/workflow.go:271-338 | under both conditions, with distinct stored and distinct generated targets, the targets deployed to are exactly the generated ones |
| `WorkflowCoverage.ComparingAgainKeepsAll` | pkg/server/domain/repository/workflow.go:283-337 | when the targets agree and the stored ones are distinct, everything is kept and nothing added, exactly when every policy has a target |
| `WorkflowCoverage.CompareWithoutTargets` | pkg/server/domain/repository/workflow.go:298-336 | a stored and an equal generated step whose policy has no targets: the first is deleted and the second added |
| `WorkflowCoverage.StoredTwiceIsLostIff` | pkg/server/domain/repository/workflow.go:294-307 | a generated target that is stored twice is not deployed to afterwards exactly when no placed step carries it, so never where steps are placed as a whole |
| `WorkflowCoverage.CompareStoredTwice` | pkg/server/domain/repository/workflow.go:294-337 | two stored deploy steps for one target that is also generated: both are deleted and nothing is placed |
| `WorkflowCoverage.ModifiedHoldsSeveral` | pkg/server/domain/repository/workflow.go:308-312 | a modified step holds two policies or more and keeps some but not all |
| `WorkflowPolicies.GetPolicies` | pkg/server/domain/repository/workflow.go:125-175 | the three lists, in terms of the tags the steps give |
| `WorkflowPolicies.PickedOnce` | pkg/server/domain/repository/workflow.go:153-173 | a list holds one existing record per tagged name that has one |
| `WorkflowPolicies.PickedFirst` | pkg/server/domain/repository/workflow.go:153-173 | of several records of a tagged name the first is listed |
| `WorkflowPolicies.ListsAreDisjoint` | pkg/server/domain/repository/workflow.go:153-174 | no policy is both created and updated, none is in one list twice, and the lists name exactly the tagged records |
| `WorkflowPolicies.TagsOfName` | pkg/server/domain/repository/workflow.go:131-152 | a name is tagged kept, created or updated exactly when some step marks a policy of that name so |
| `WorkflowPolicies.SharedPolicyDeletedIff` | pkg/server/domain/repository/workflow.go:131-152 | a named env-binding policy is deleted exactly when some step deletes it and none keeps it, whatever the step order |
| `WorkflowPolicies.UnsharedPolicyDeletedIff` | pkg/server/domain/repository/workflow.go:131-152 | any other policy is deleted exactly when some step deletes it, even if another keeps it |
| `WorkflowPolicies.NamelessPolicyDependsOnOrder` | pkg/server/domain/repository/workflow.go:136-138 | without a name the outcome depends on the step order |
| `WorkflowPolicies.PolicySurvivesIff` | pkg/server/domain/repository/workflow.go:372-390 | for all tags and records: a policy is stored afterwards exactly when it was stored and not dropped, or is to be created and no record to be created exists already |
| `WorkflowPolicies.RecordContent` | pkg/server/domain/repository/workflow.go:372-390 | what a record is afterwards: the first generated one of its name where it stays and is updated or is created, the stored one where it stays otherwise |
| `WorkflowPolicies.Datastore.BatchAdd` | pkg/server/infrastructure/datastore/kubeapi/kubeapi.go:123-144 | all records are added as given beside the others, or nothing changes where one of them exists |
| `WorkflowPolicies.Datastore.Put` | pkg/server/infrastructure/datastore/kubeapi/kubeapi.go:167-203 | existing records become the given ones, missing ones are not added, others stay |
| `WorkflowPolicies.Datastore.List` | pkg/server/domain/repository/workflow.go:353-360 | the topology and env-binding records, each once, in some order |
| `WorkflowReconciliation.CreateWorkflowSteps` | pkg/server/domain/repository/workflow.go:188-267 | fresh, unmarked steps for exactly the readable stored steps in their order, each holding the shared policy objects it names |
| `WorkflowReconciliation.TrackCases` | pkg/server/domain/repository/workflow.go:224-265 | by type, which policies a step is compared by and when it does not take part |
| `WorkflowReconciliation.ClusterTargetsAt` | pkg/server/domain/repository/workflow.go:200-202 | a topology policy has one target per cluster, in order |
| `WorkflowReconciliation.GetSteps` | pkg/server/domain/repository/workflow.go:90-122 | the written steps for any marked steps |
| `WorkflowReconciliation.LookupFindsEachIff` | pkg/server/domain/repository/workflow.go:91-98 | steps are found again by name, each as it is, exactly when steps of one name are alike |
| `WorkflowReconciliation.RetainedInOrder` | pkg/server/domain/repository/workflow.go:90-122 | where steps of one name are alike, what is written for the stored steps is, in their order, one step for each that is not deleted: unchanged when kept, unchanged but for its policies when modified |
| `WorkflowReconciliation.Written` | pkg/server/domain/repository/workflow.go:90-122 | after the comparison the written workflow is the new cloud-resource steps, the retained stored steps, then the other new steps |
| `WorkflowReconciliation.PlainStepsStay` | pkg/server/domain/repository/workflow.go:258-264 | a step that deploys nothing is always retained as it was |
| `WorkflowReconciliation.ModifiedIsDeploy` | pkg/server/domain/repository/workflow.go:106-117 | only readable deploy steps are ever modified, so no modified step is dropped |
| `WorkflowReconciliation.MarksAreDecided` | pkg/server/domain/repository/workflow.go:131-152 | the marks collected from the shared objects are what the comparison decided for each |
| `WorkflowReconciliation.SurvivorsAreDeployed` | pkg/server/domain/repository/workflow.go:298-337 | the targets of the policies that survive on the marked objects are those reckoned from the stored and generated targets alone |
| `WorkflowReconciliation.Reconcile` | pkg/server/domain/repository/workflow.go:341-393 | comparing and writing back gives the new workflow, the decided policy marks, and survivors that deploy to the reckoned targets |
| `WorkflowReconciliation.UpdateEnvWorkflow` | pkg/server/domain/repository/workflow.go:341-393 | without a workflow nothing changes; else the stored workflow and policy records afterwards, from the stored and generated steps and policies alone |
| `WorkflowNamesakes.StoredWrittenIff` | pkg/server/domain/repository/workflow.go:90-267 | over all stored steps, where steps of one name are alike: in order, exactly those are written again that can be read, name a known policy where they need one, and do not drop every policy they hold |
| `WorkflowNamesakes.KeptWrittenBackIff` | pkg/server/domain/repository/workflow.go:90-122 | where everything is kept, the written workflow is the stored one exactly when every step takes part and steps of one name are alike |
| `WorkflowNamesakes.StaysOnePerNameIff` | pkg/server/domain/repository/workflow.go:90-122 | an update leaves steps of one name alike exactly when no step it places has the name of an unlike stored step it writes again |
| `WorkflowRecords.DecidedIff` | pkg/server/domain/repository/workflow.go:125-152 | a policy name is marked deleted, kept, updated or new exactly under a condition on the targets gone and added and on stored cloud-resource steps |
| `WorkflowRecords.PolicyStoredIff` | pkg/server/domain/repository/workflow.go:365-390 | where policies of one name are of one kind: a policy is stored after the update exactly when it was stored and is not dropped, or is brought to be created and no policy so brought is stored already, all in terms of the steps and their targets |
| `WorkflowRecords.RecordAfterwards` | pkg/server/domain/repository/workflow.go:365-390 | the record afterwards in terms of the steps and their targets: as generated where brought to be updated or created, else as it was |
| `WorkflowRecords.EnvBindingLostIff` | pkg/server/domain/repository/workflow.go:365-390 | with a cloud-resource step stored, a listed env-binding policy is lost exactly when some step drops it and nothing holds on to it |
| `WorkflowRecords.TopologyDeletedIff` | pkg/server/domain/repository/workflow.go:125-159 | a topology policy is deleted exactly when some step drops it, even where another step that shares it keeps it |
| `WorkflowRecords.KeptPolicyStays` | pkg/server/domain/repository/workflow.go:365-390 | a stored policy that no step drops is stored afterwards |
| `WorkflowRecords.EveryNamedStoredIff` | pkg/server/domain/repository/workflow.go:365-390 | every policy a written step names is stored exactly when those of placed steps and those dropped by one step and kept by another survive |
| `WorkflowRecords.BroughtPolicyStoredIff` | pkg/server/domain/repository/workflow.go:365-390 | a brought policy is stored exactly when its record is there and not deleted, or it is to be created and nothing is in the way |
| `WorkflowLosses.ReplaceOnlyTarget` | pkg/server/domain/repository/workflow.go:341-393 | for all step and policy names and differing targets: replacing the only target of a cloud-resource step leaves a written step whose policy is not stored |
| `WorkflowLosses.RestoreOnNextUpdate` | pkg/server/domain/repository/workflow.go:341-393 | from there the next update writes the same step and stores its policy again |
| `WorkflowLosses.DropSharedPolicy` | pkg/server/domain/repository/workflow.go:188-393 | a deploy step and a cloud-resource step whose policy and environment join to the same topology policy: with only the plain target generated, the deploy step is written and its policy is not stored |
| `WorkflowLosses.DisagreementIsCoincidence` | pkg/server/domain/repository/workflow.go:242-257 | steps that share a topology policy and disagree on dropping it are a cloud-resource step whose policy and environment join to its name, and a step of another type |
| `WorkflowLosses.BringBackRemovedStep` | pkg/server/domain/repository/workflow.go:341-393 | a policy record left behind by a removed step keeps the other new policy from being stored, though a written step names it |
| `WorkflowReread.RereadDeploys` | pkg/server/domain/repository/workflow.go:188-393 | for deploy steps with topology policies found by name, with nothing in the way: steps built from the written workflow and the stored policies deploy to the reckoned targets |
| `WorkflowReread.SecondUpdateKeepsAllIff` | pkg/server/domain/repository/workflow.go:188-393 | for deploy steps, after an update that covers distinct generated targets: a second one marks every step and policy kept and places nothing exactly when every policy has a target, and then changes no record |
| `WorkflowReread.SecondUpdateWritesSameIff` | pkg/server/domain/repository/workflow.go:90-122 | it then writes the same workflow exactly when the first update placed no step with the name of an unlike stored step it wrote again |
| `WorkflowTwice.UpdateTwice` | pkg/server/domain/repository/workflow.go:341-393 | an empty workflow updated twice with the same step and policy: the second update changes neither the workflow nor the record |
| `WorkflowTwice.OverwriteNamesake` | pkg/server/domain/repository/workflow.go:90-122 | a stored step named like a target added later: the first update writes both steps of the name, the second writes the generated one twice |
| `WorkflowGrowth.AddCloudTarget` | pkg/server/domain/repository/workflow.go:341-393 | a second cloud-resource target: its step is written in front, and the shared policy record becomes the generated one for both targets |
| `PercentCoding.EscapedCharDecodes` | packages/velaux-ui/src/services/LocationService.ts:26-37 | the UTF-8 escapes of any character decode to that character and nothing more |
| `PercentCoding.DecodeIff` | packages/velaux-ui/src/services/LocationService.ts:135-141 | a text decodes exactly when it is made of plain characters and of characters spelled as the octets of their UTF-8 form, and then to those |
| `PercentCoding.StandsForItselfIff` | packages/velaux-ui/src/services/LocationService.ts:26-37 | exactly letters, digits and nine marks are not escaped |
| `PercentCoding.EncodeQueryByCharacter` | packages/velaux-ui/src/services/LocationService.ts:26-37 | the replacement passes over the whole text do to each character what they do to it alone |
| `PercentCoding.QueryRoundTrip` | packages/velaux-ui/src/services/LocationService.ts:26-37 | decoding an encoded text gives the text back |
| `PercentCoding.EncodeQueryIsSafe` | packages/velaux-ui/src/services/LocationService.ts:26-37 | no separator of a query string survives the encoding, and only the empty text encodes to nothing |
| `QueryString.ToUrlParams` | packages/velaux-ui/src/services/LocationService.ts:39-89 | the printed parts of every key and value, joined, for any enumeration order |
| `QueryString.BracketedItems` | packages/velaux-ui/src/services/LocationService.ts:60-68 | a key that ends in brackets prints each item as it is |
| `QueryString.OddlyPrinted` | packages/velaux-ui/src/services/LocationService.ts:57-84 | under an empty key a text is printed character by character and a list loses its items; a text that reads as an object is taken apart |
| `QueryString.DigitsAreDecimal` | packages/velaux-ui/src/services/LocationService.ts:69-72 | positions are printed as decimal numbers |
| `QueryString.SplitJoin` | packages/velaux-ui/src/services/LocationService.ts:88-93 | splitting joined parts gives the parts back |
| `QueryString.ReadAdd` | packages/velaux-ui/src/services/LocationService.ts:47-55 | a printed part reads back as its key and value and holds no separator |
| `QueryString.ParseKeyValue` | packages/velaux-ui/src/services/LocationService.ts:91-133 | the map a string parses to, or that parsing throws |
| `QueryString.ReadPartCases` | packages/velaux-ui/src/services/LocationService.ts:100-119 | a key alone is true, a value that does not decode is undefined, a part whose key does not decode is passed over |
| `QueryString.PlusReadsAsSpace` | packages/velaux-ui/src/services/LocationService.ts:101 | a plus sign stands for a space |
| `QueryString.PutCases` | packages/velaux-ui/src/services/LocationService.ts:114-127 | a first and a second value become booleans where they read so, further ones stay as they are, and other keys are untouched |
| `QueryString.ParsedIsProducible` | packages/velaux-ui/src/services/LocationService.ts:109-128 | a parse gives one normalised value, or two normalised ones followed by raw ones |
| `QueryString.RoundTripIff` | packages/velaux-ui/src/services/LocationService.ts:39-133 | printing and parsing gives a map of the domain back exactly when each of its values is one a parse can produce |
| `QueryString.NotEverythingSurvives` | packages/velaux-ui/src/services/LocationService.ts:39-133 | for every key, a list of one item, a text that reads as a boolean, a number and a null do not come back |
| `QueryString.ParsedRoundTrips` | packages/velaux-ui/src/services/LocationService.ts:39-133 | a map of the domain that a parse yields with nothing undecodable in it, booleans and repeated keys included, prints and parses back to itself |
| `LocationService.Overridden` | packages/velaux-ui/src/services/LocationService.ts:191-198 | key by key: a given value is taken, a null removes its key, what is not given stays |
| `LocationService.OverrideStaysInDomain` | packages/velaux-ui/src/services/LocationService.ts:187-198 | overriding with values of the codec's domain stays within it, with exactly the expected keys |
| `LocationService.ParsePathQuery` | packages/velaux-ui/src/services/LocationService.ts:19-24 | the pushed url comes apart into the same path and the printed query |
| `LocationService.RenderUrl` | packages/velaux-ui/src/services/LocationService.ts:19-24 | the url leads back to the path, and to the parameters exactly when their values are ones a parse can produce |
| `LocationService.HistoryWrapper.GetSearchObject` | packages/velaux-ui/src/services/LocationService.ts:230-254 | the parsed search part, with or without its question mark |
| `LocationService.HistoryWrapper.Partial` | packages/velaux-ui/src/services/LocationService.ts:187-207 | a push drops the entries ahead and adds one, a replacement changes only the current one; path and state stay; where the overridden map is in the codec's domain and producible, the map read back has each given value, lacks each key given as null and keeps the rest; it is read back exactly when its values are ones a parse can produce |
| `Permissions.ParsePrinted` | packages/velaux-ui/src/utils/permission.ts:8-33 | parsing the printed form of a well-formed chain rebuilds it |
| `Permissions.ParsedIsWellFormed` | packages/velaux-ui/src/utils/permission.ts:12-32 | the constructor ends on every string and yields a well-formed chain |
| `Permissions.PrintParseIff` | packages/velaux-ui/src/utils/permission.ts:8-33 | printing and parsing rebuilds a chain exactly when it is one the parser can yield |
| `Permissions.ParseWithoutValue` | packages/velaux-ui/src/utils/permission.ts:18-25 | a segment without a colon, or with several, is a type for every value |
| `Permissions.ParseTrailingSlash` | packages/velaux-ui/src/utils/permission.ts:26-31 | a slash at the end adds nothing |
| `Permissions.ResourceMatch` | packages/velaux-ui/src/utils/permission.ts:103-126 | the two-cursor loop equals the recursive specification |
| `Permissions.CoversIff` | packages/velaux-ui/src/utils/permission.ts:103-126 | a closed form over the segments: up to one for all types, or to the end of both, types agree and values agree, or the permission stands for every value, or the request asks for any |
| `Permissions.AnyValueIsCovered` | packages/velaux-ui/src/utils/permission.ts:116 | a request for any value is covered by every permission of the same types |
| `Permissions.EveryValueCovers` | packages/velaux-ui/src/utils/permission.ts:116 | a permission for every value covers every request of the same types |
| `Permissions.CoversReflexive` | packages/velaux-ui/src/utils/permission.ts:103-126 | every name covers itself |
| `Permissions.CoversTransitive` | packages/velaux-ui/src/utils/permission.ts:103-126 | covering is transitive with both wildcards and truncation |
| `Permissions.CoversAntisymmetric` | packages/velaux-ui/src/utils/permission.ts:103-126 | two names cover each other exactly when they agree on all that matching can see |
| `Permissions.Match` | packages/velaux-ui/src/utils/permission.ts:88-101 | a permission matches when its actions and one of its resources cover the request |
| `Permissions.NarrowerRequestStillMatches` | packages/velaux-ui/src/utils/permission.ts:88-126 | what a permission matches is closed under narrowing the request |
| `Permissions.Collect` | packages/velaux-ui/src/utils/permission.ts:53-72 | the collected permissions are exactly the applicable ones |
| `Permissions.ApplicableIff` | packages/velaux-ui/src/utils/permission.ts:53-72 | platform permissions always apply, those of a project when it or any is asked about |
| `Permissions.GrantedAlone` | packages/velaux-ui/src/utils/permission.ts:73-85 | alone, a matching permission grants exactly when it allows or says nothing, in any case of letters; a matching deny always refuses |
| `Permissions.CheckPermission` | packages/velaux-ui/src/utils/permission.ts:35-86 | the answer depends only on the set of applicable permissions: no matching deny and some matching allow; a project named like an inherited property throws unless a platform permission denies first |
| `Permissions.InheritedNameThrows` | packages/velaux-ui/src/utils/permission.ts:66-85 | asking about a project named like an inherited property throws, or refuses where a platform permission denies |
| `Permissions.MonotoneInEffects` | packages/velaux-ui/src/utils/permission.ts:73-85 | adding an allow never revokes, adding a deny never grants |
| `TokenRefresh.Interceptor.OnExpired` | packages/velaux-ui/src/services/BackendService.ts:84-115 | an expired token starts a refresh when none is in flight, else queues the request |
| `TokenRefresh.Interceptor.OnRefreshed` | packages/velaux-ui/src/services/BackendService.ts:88-98 | a token retries the whole queue in order, empties it, and replays the initiator's request |
| `TokenRefresh.Interceptor.OnRefreshLost` | packages/velaux-ui/src/services/BackendService.ts:100-107 | without a token the queue is left as it is |
| `TokenRefresh.Interceptor.OnReplaySettled` | packages/velaux-ui/src/services/BackendService.ts:98-107 | the chain goes on to its last step when the replay settles |
| `TokenRefresh.Interceptor.OnReplayExpired` | packages/velaux-ui/src/services/BackendService.ts:84-115 | the initiator's replay is queued like any other request while the flag is still set |
| `TokenRefresh.Interceptor.OnFinally` | packages/velaux-ui/src/services/BackendService.ts:105-107 | the flag is cleared only when the chain ends |
| `TokenRefresh.OnlyTokenSends` | packages/velaux-ui/src/services/BackendService.ts:88-107 | only a refresh that brings a token sends what waits, all of it in order; one that is lost leaves queue, tickets and flag as they are |
| `TokenRefresh.OnlyExpiryQueues` | packages/velaux-ui/src/services/BackendService.ts:84-115 | only an expired token met during a refresh queues a request |
| `TokenRefresh.SentByToken` | packages/velaux-ui/src/services/BackendService.ts:94-97 | over a run, whatever was sent was waiting when a token came |
| `TokenRefresh.StepKeepsInv` | packages/velaux-ui/src/services/BackendService.ts:79-121 | each step keeps the invariant and only extends the history of queued requests and the retries sent |
| `TokenRefresh.RunsKeepInv` | packages/velaux-ui/src/services/BackendService.ts:79-121 | in every interleaving at most one refresh is in flight, exactly while the flag is set, and retried followed by waiting requests are all those ever queued, in order |
| `TokenRefresh.QueuedOnceRetriedOnce` | packages/velaux-ui/src/services/BackendService.ts:94-114 | a request once queued is from then on either waiting or retried, exactly once |
| `TokenRefresh.DeadlockedForGood` | packages/velaux-ui/src/services/BackendService.ts:85-114 | once the initiator's replay waits in the queue, no continuation retries anything |
| `TokenRefresh.RetryPossibleIff` | packages/velaux-ui/src/services/BackendService.ts:79-121 | a waiting request can still be retried exactly when the initiator's replay is not waiting in the queue |
| `TokenRefresh.DeadlockReachable` | packages/velaux-ui/src/services/BackendService.ts:85-114 | a run of three steps that deadlocks |
| `ExpiringCache.MemoryCacheStore.Put` | pkg/server/utils/cache.go:85-88 | one step of the interleaved runs: the key holds the value with its start time, nothing else changes |
| `ExpiringCache.MemoryCacheStore.Delete` | pkg/server/utils/cache.go:91-93 | one step of the interleaved runs: the key goes, nothing else changes |
| `ExpiringCache.MemoryCacheStore.Get` | pkg/server/utils/cache.go:96-102 | an unexpired value, else nothing |
| `ExpiringCache.ExpiresIff` | pkg/server/utils/cache.go:39-44 | an entry expires once its duration has passed, never without a positive one, and then for good |
| `ExpiringCache.MemoryCacheStore.LoadEntry` | pkg/server/utils/cache.go:74 | the sweeper takes the entry it then checks |
| `ExpiringCache.MemoryCacheStore.CheckEntry` | pkg/server/utils/cache.go:75 | the entry taken is checked, not the one stored meanwhile |
| `ExpiringCache.MemoryCacheStore.DeleteEntry` | pkg/server/utils/cache.go:76 | whatever is stored under the key goes |
| `ExpiringCache.MemoryCacheStore.Sweep` | pkg/server/utils/cache.go:66-82 | an uninterrupted sweep, made of the three steps, removes exactly the expired entries |
| `ExpiringCache.GetIsLatest` | pkg/server/utils/cache.go:39-102 | in every interleaving, what a reader gets is the latest value put, undeleted and unexpired |
| `ExpiringCache.FaithfulIff` | pkg/server/utils/cache.go:66-102 | readers see what a cache without a sweeper shows exactly when everything missing has expired |
| `ExpiringCache.SweeperInvisibleIff` | pkg/server/utils/cache.go:66-102 | over a whole run the sweeper is invisible exactly when no deletion of it meets an unexpired entry |
| `ExpiringCache.UninterleavedSweepsInvisible` | pkg/server/utils/cache.go:66-102 | sweeps with no put while the sweeper is at the key change no present or later read |
| `ExpiringCache.FreshValueCanBeLost` | pkg/server/utils/cache.go:74-79 | a run in which a fresh value is swept away |
| `UISchema.PatchSchema` | pkg/server/domain/service/definition.go:573-623 | the loop over the default level with its recursive calls is the recursive patch |
| `UISchema.PatchGives` | pkg/server/domain/service/definition.go:581-617 | the parameter given for each default one: itself, or its merged fields with the level below taken from one side or patched |
| `UISchema.FieldsTaken` | pkg/server/domain/service/definition.go:584-616 | field by field, the custom value where it is set and else the default |
| `UISchema.PatchOneSided` | pkg/server/domain/service/definition.go:578-580 | without a default the custom schema, without a custom one the default up to order |
| `UISchema.FindLast` | pkg/server/domain/service/definition.go:574-577 | a later custom parameter of a key replaces an earlier one |
| `UISchema.PatchDistinct` | pkg/server/domain/service/definition.go:573-623 | distinct keys stay distinct on every level |
| `UISchema.PatchCanon` | pkg/server/domain/service/definition.go:573-623 | for distinct keys and up to sibling order, a level with a default keeps exactly its keys, takes each field from the custom schema when set and else from the default; a level without one is the custom level |
| `UISchema.PatchSortsLevels` | pkg/server/domain/service/definition.go:602-622 | for distinct keys, every patched level with a default, however deep, is sorted by position |
| `UISchema.MergeAgain` | pkg/server/domain/service/definition.go:573-623 | merging the same custom level a second time changes nothing |
| `UISchema.PatchIdempotent` | pkg/server/domain/service/definition.go:573-623 | for distinct keys, patching a patched schema again changes at most the order of siblings |
| `ApplicationStatus.GetApplicationStatusFromAllEnvs` | pkg/server/domain/service/application.go:471-493 | one application's statuses read binding by binding, failing on the first unreadable one |
| `ApplicationStatus.FromAllEnvsOkIff` | pkg/server/domain/service/application.go:477-490 | the one-by-one reading succeeds exactly when no followed binding fails to read |
| `ApplicationStatus.ReportedIff` | pkg/server/domain/service/application.go:477-490 | what is reported: the statuses deployed for bindings to environments of the project |
| `ApplicationStatus.ReadingFailsIff` | pkg/server/domain/service/application.go:482-488 | it fails exactly when such a binding leads to an application that cannot be read or whose status cannot be decoded |
| `ApplicationStatus.StatusesOfApps` | pkg/server/domain/service/application_list_status.go:38-119 | each wanted application gets its statuses in binding order, from the listing or one by one where a namespace cannot be listed, and no other application gets any |
| `ApplicationStatus.BatchReportedIff` | pkg/server/domain/service/application_list_status.go:94-117 | what is reported: the deployed statuses that a listing or, where there is none, a reading gives |
| `ApplicationStatus.BatchAgreesIff` | pkg/server/domain/service/application_list_status.go:33-119 | for any set of unlistable namespaces the batched reading equals the one-by-one reading exactly when none of the latter's reads fails and no foreign environment shows a status |
| `ApplicationStatus.ForeignEnvironmentReported` | pkg/server/domain/service/application_list_status.go:63-75 | an application bound to an environment of another project: only the batched reading reports it |
| `ApplicationStatus.SummariseEnv` | pkg/server/domain/service/application_summary.go:40-67 | the health by phase and services, and the numbers of components and healthy ones |
| `ApplicationStatus.SummariseAppStatus` | pkg/server/domain/service/application_summary.go:20-38 | the fold over the environments that have a status |
| `ApplicationStatus.SummaryAdds` | pkg/server/domain/service/application_summary.go:23-36 | one more environment adds its components and, only where it is worse than all before, sets health and workflow phase |
| `ApplicationStatus.RankOrder` | pkg/server/domain/service/application_summary.go:9-16 | the healths from best to worst |
| `ApplicationStatus.SummaryTotals` | pkg/server/domain/service/application_summary.go:27-30 | the counts are the sums over the environments, and each environment is listed in order |
| `ApplicationStatus.SummaryIsWorst` | pkg/server/domain/service/application_summary.go:31-35 | the health is the worst, the workflow that of the first environment having it |
| `ApplicationStatus.WorkflowIgnoresOrderIff` | pkg/server/domain/service/application_summary.go:31-35 | every order of the environments shows the same workflow phase exactly when all those of the worst health are at the same phase |
| `ApplicationStatus.WorkflowDependsOnOrder` | pkg/server/domain/service/application_summary.go:31-35 | of two environments with the same health at different phases, the one that comes first is shown |
| `ApplicationStatus.SummaryIgnoresOrder` | pkg/server/domain/service/application_summary.go:20-38 | health and counts are the same for every order of the environments |
| `DefinitionPicker.WithProjectDefinitions` | pkg/server/domain/service/definition_place.go:114-150 | scope and namespace of every definition, which are overridden, and the exact list for the picker and for all; only global ones where the project's namespace is not among those asked for |
| `DefinitionPicker.PlaceOfCases` | pkg/server/domain/service/definition_place.go:70-105 | where a definition is, for each scope asked for, with and without a project, and for each result of the lookup |
| `DefinitionPicker.OthersCount` | pkg/server/domain/service/definition_place.go:133-139 | the namespaces a project's definition cannot be used in are those asked for but its own |
| `DefinitionPicker.PickerListsEachNameOnce` | pkg/server/domain/service/definition_place.go:107-150 | for listings with distinct names, the picker lists exactly one definition per available name |
| `DefinitionPicker.PickerAgreesWithLookupIff` | pkg/server/domain/service/definition_place.go:70-150 | the listed definition is the one a lookup from the project resolves exactly when the project's namespace is asked for, or is the system's, or the project does not override the name |
| `DefinitionPicker.OverriddenMarksWhatLookupHides` | pkg/server/domain/service/definition_place.go:70-127 | a global definition is marked overridden exactly when a lookup from the project does not find it, for a project outside the system namespace |
| `Environments.CheckEnvTarget` | pkg/server/domain/service/env.go:301-323 | true exactly when no other environment of the project has one of the targets |
| `Environments.EnvService.CreateEnv` | pkg/server/domain/service/env.go:246-299 | the exact answer, refusals in the source's order, and the whole new store |
| `Environments.EnvService.UpdateEnv` | pkg/server/domain/service/env.go:174-235 | the exact answer, and the whole new store: free, known and distinct targets, and none dropped while applications are deployed |
| `Environments.EnvService.DeleteEnv` | pkg/server/domain/service/env.go:73-100 | the exact answer, and the whole new store: the environment goes unless its namespace is missing, also where its privileges are not removed; deleting an absent one succeeds |
| `Environments.CountListed` | pkg/server/domain/service/env.go:205-218 | comparing the counts accepts exactly distinct, known targets |
| `Environments.CheckDecides` | pkg/server/domain/service/env.go:301-323 | storing an environment of a project keeps targets exclusive exactly when the check passes |
| `Environments.RunsStayExclusive` | pkg/server/domain/service/env.go:73-323 | over every run without admitted conflicts no two environments of one project share a target |
| `ReportChart.ChartOf` | pkg/server/domain/report/run.go:106-141 | labels strictly increase, series are the sorted union of those used, and each value is the sum over exactly the matching rows |
| `ReportChart.RowAdds` | pkg/server/domain/report/run.go:110-131 | what one more row adds to a label and series: its Y or one, for its label and for the series its group, its Y or the count names |
| `ReportChart.CellsIff` | pkg/server/domain/report/run.go:110-131 | the labels and series charted are those of the rows that have a label |
| `ReportChart.ChartConserves` | pkg/server/domain/report/run.go:106-141 | all values together are the total over the rows that have a label |

## Left out

- `ComponentService.RunsStayAcyclic`: requests run one after another; two requests that read the same components before either writes are not modelled, nor is a failing store. That no consumed output has two owners is sufficient for it, not necessary.
- `ComponentService.ApplicationComponents.CreateComponent`: traits and properties count only as readable or not.
- `WorkflowComparison.CompareWorkflowSteps`: targets are values, so the sorting of a policy's targets in place by the slice comparison is not visible.
- `WorkflowCoverage.DeployedCount`: where a stored policy is gone in part, or a modified step holds a policy only another step drops, the counts of the remaining targets have no simpler form than the steps themselves; `WorkflowCoverage.StoredGiveUpGoneIff` says exactly when that is not so.
- `WorkflowRecords.PolicyStoredIff`: a name that is a topology policy's among the stored steps and an env-binding policy's among the generated ones, or an env-binding policy without a name, where the order of the steps decides.
- `WorkflowNamesakes.StoredWrittenIff`: where steps of one name are unlike, what is written is the last of the name, as `WorkflowReconciliation.Written` states.
- `WorkflowPolicies.Datastore.BatchAdd`: a batch that names a record twice, which the reconciliation never adds.
- `WorkflowReread.RereadDeploys`: env-binding policies, whose records one update replaces for all environments at once, are not read back; a stored deploy step that names a policy which only now comes to exist would deploy to more.
- `WorkflowReconciliation.GetSteps`: a modified step's properties are rewritten as a value; that the stored step's property map is the same object is not modelled, nor the nil-pointer failure of a deploy step stored without properties.
- `WorkflowReconciliation.CreateWorkflowSteps`: JSON is readable or not; an env-binding entry without a cluster or namespace selector, which fails in the source, is not modelled.
- `WorkflowReconciliation.UpdateEnvWorkflow`: the datastore's own failures, which the source logs and passes over.
- `QueryString.ToUrlParams`: functions and nested objects as values; a list under an empty key holding null or undefined, which throws. A number is given as it prints.
- `QueryString.RoundTripIff`: for keys other than the empty one, `hasOwnProperty` and `__proto__`, and without the text `[object Object]`; lone surrogates do not exist among Dafny's characters.
- `LocationService.HistoryWrapper.Partial`: how a pushed url comes apart, and what becomes of the entries ahead, is that of the history library.
- `TokenRefresh.RunsKeepInv`: tokens and the login reset are not modelled; a request is a number, and the network decides which event comes next.
- `UISchema.PatchSchema`: schemas are values, so pointers shared between the default and the custom schema are not visible, and siblings with equal positions keep their order, which the source's sort does not promise.
- `ApplicationStatus.StatusesOfApps`: listing environments or bindings always succeeds; both readings look at one snapshot.
- `ApplicationStatus.GetApplicationStatusFromAllEnvs`: listing bindings, environments, targets and workflows always succeeds.
- `Environments.EnvService.CreateEnv`: the namespace is given; how a default one is derived from project and name is not modelled.
- `ReportChart.ChartOf`: values are reals, without rounding; how a cell prints and counts is part of the cell.
- The comparison of a deployed with a current application: it sorts components and policies by name and then compares what a JSON encoder makes of both, and the encoder is not part of this model.
- Marking definitions as unusable in namespaces, which rests on labels read from the cluster.
- Generating an environment's workflow steps and policies from its targets, which rests on component definitions read from the cluster.
- HTTP, Kubernetes, datastore drivers beyond the three operations used here, authentication, CUE and CEL evaluation, and the user interface's components.
