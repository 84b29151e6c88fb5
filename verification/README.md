# upjet: verified model of the conversion, planning and concurrency core

upjet generates Crossplane providers from Terraform providers. This project models, in Dafny, the parts of its
runtime that combine branching, state or recursion, and proves what they are there for. The Kubernetes, Terraform
and field path libraries are small explicit specifications. Where the source works in place, so does the model:
classes with fields, methods with loops, each proved against a function or a predicate about which the laws are
then proved.

- **Proposed state** (`ProposedState.dfy` with the merge, `ProposedStateWalk.dfy` and `ProposedStateLoops.dfy` with the
  walk and the loops of the source, `ProposedStateLaws.dfy`, `ProposedStateReplan.dfy`, `ProposedStateTakeover.dfy`,
  `ProposedStatePaths.dfy`, `ProposedStateProvenance.dfy`, `ProposedStateSets.dfy`, `ProposedPlan.dfy`): the recursive merge
  of prior state and configuration under a schema. The configuration wins at every depth, every other value is the one
  that the prior state has at the place the correlation chose, set elements are correlated one to one, and planning
  again changes nothing wherever a caller can tell so from the configuration.
- **Singleton lists and embedded objects** (`ListConversion.dfy`, `SchemaTraversal.dfy`, `ListConversionLaws.dfy`,
  `TerraformConversion.dfy`, with `JsonDocument.dfy`): path rewriting in sorted order is one recursion over the schema, and
  the two directions undo each other exactly when they can.
- **Asynchronous operations** (`Operations.dfy`, `AsyncProtocol.dfy`): a reconciler thread and the goroutines it starts
  as a step relation; the laws hold in every reachable state of every interleaving.
- **Provider scheduling and CLI workspaces** (`Scheduler.dfy`, `WorkspaceProtocol.dfy`): any number of workspaces
  sharing runners, with reference counts that are always the number of users.
- **Annotation-backed fields** (`AnnotationConversion.dfy`): fields parked in an annotation and restored.
- **Storage version migration** (`Migration.dfy`): a paged list-and-patch loop against concurrent clients.
- **Reference resolution** (`References.dfy`): depth first over a possibly cyclic graph of manifests, up to the equality
  of references and targets after a whole run.
- **Rate limiter registry** (`RateLimiting.dfy`, `ReconciliationPolicy.dfy`): buckets of requests sharing limiters refine
  a plain map of overrides, delays included.
- **initProvider diffs** (`IgnoredDiffs.dfy`), **late initialization** (`LateInitialization.dfy`), **secret keys**
  (`SecretKeyText.dfy`, `SecretKeys.dfy`) and **external names** (`ExternalNames.dfy`), with `Numerals.dfy` and `Wrappers.dfy`.

`dafny verify dfyconfig.toml` checks the whole project.

## Assumptions

- Reconciles of one resource are serialized (controller-runtime's guarantee); every locked access to an operation, a
  scheduler or a limiter is one atomic step. Goroutines interleave arbitrarily between steps.
- What Terraform, the API server, the clock and other clients do is arbitrary: it enters as parameters, as oracle
  functions of the time, or as a choice among steps.
- Go's map iteration order is arbitrary: the loops pick any remaining element.
- In the rate limiter registry, the count law needs that a new key comes with a limiter of its own that has counted
  nothing. The ghost field `exclusive` records whether that has been so; the reconciler always makes it so.
- An object converted to another version inherits the annotations, and where the documents of two versions both have a
  container at a path, it is of the same kind.
- Paths are looked up in a Terraform schema as terraform-plugin-framework does: a name in a schema, block, nested object
  or single nested attribute, an element in a list, map or set. Looked up in a nested attribute of another kind, a name
  resolves to nothing.
- List pages of the migration come from one snapshot, as long as the continue token is accepted; a token that is not
  is a list error.

## Where the code differs from its documentation or its purpose

- `LateInitialize` is documented to report whether a field was stored (`pkg/resource/lateinit.go:210-213`). A run without
  an error stores something and reports nothing exactly when all there is to store are pointers to structs in which
  there is nothing to carry: `LateInitialization.LateInitialize` and `UnreportedIff`, with `UnreportedChange` such an
  object.
- A proposed state is meant to be stable. Planned again, it can change. An element of a set block fits what was planned
  for it, with or without a prior element, exactly if it refits (`ProposedStateReplan.PlannedFitsIff`): a condition on
  what it leaves null of attributes that are computed and have attributes of their own. If all refit, planning again
  changes nothing (`ReplanIsFixedPoint`). One that does not refit, next to another that differs in a computed leaf, is
  planned to a state that changes (`ProposedStateTakeover.StableIffRefits`), so that this can happen in every schema with
  a set block of elements with such an attribute and a computed leaf (`ReplanChanges`; `RulesChange` is a schema).
- Comparing a prior element of a set block with a configured one can end with a failed type assertion
  (`pkg/controller/proposed_state.go:647`), against the comment at lines 634-636: the walk gets there at an element of a
  list or a map that is in both and differs. `ProposedStateWalk.ListItemFails` is an input at which it does so in every
  order, `ObjectEnds` says when some order of the fields leads there and when none does, and the loops plan nothing
  only where such a pair is compared (`ProposedStateLoops.MayFail`, in the contract of each).
- The elements of a set are documented to be paired only where they differ in computed values
  (`pkg/controller/proposed_state.go:587-591`). Set blocks keep to that (`ProposedStateSets.ElementAbsorbs`). In a set
  of nested attributes no path resolves, so that elements are paired by shape: single values are never looked at
  (`ProposedStateSets.PairedByShape`), where all shapes fit it is the order that pairs (`NestedSetsPairInOrder`), and in
  `NumberOfAnother` an element gets the computed value of one that has been removed.
- An empty registered list converts to an empty object and so does not come back: `ListConversionLaws.EmptyListLost` at
  that list, and `ToObjectsAndBack` for all values.
- With a retry backoff of no steps, the migrator calls nothing, reports success and changes nothing
  (`Migration.MigrateCRD`, the clauses on `steps`).
- A secret key is read back as another path, or not at all, if the path starts with an index or a name with dots, has
  either right behind an index, or has a number between two dots of a name, such as an address
  (`SecretKeys.AddressLost`); `RoundTripIff` says that these are all, and `RoundTripExactly` also which field names
  that are numbers come back.

## Model

| member | source | states |
|---|---|---|
| ProposedPlan.ProposeState | pkg/controller/proposed_state.go:67-69 | what the loops compute keeps every configured value at every depth, accounts for every other value by the prior value at the place the correlation chose, is the prior state for a null configuration, and is a fixed point if every configured element of a set block refits; there is no plan only where the walk of a correlation can fail |
| ProposedPlan.ProposeTwice | pkg/controller/proposed_state.go:87-142 | the loops run on their own result give it back, and do not fail, if every configured element of a set block refits; run with the configuration as prior state they give the configuration back, for any |
| ProposedStateReplan.ReplanIsFixedPoint | pkg/controller/proposed_state.go:87-142 | planning again from the planned state changes nothing and cannot fail, for every schema and prior state, if every configured element of a set block, at any depth, refits |
| ProposedStateReplan.PlannedFitsIff | pkg/controller/proposed_state.go:592-668 | a configured element of a set block fits what is planned for it, with any prior element that fits or with none, exactly if it refits: each attribute it leaves null that is computed and has attributes of its own is a list or map, or stays null, or has no attributes at all |
| ProposedStateReplan.ReplanNeverFails | pkg/controller/proposed_state.go:592-668 | compared with a planned state, the walk of no correlation can fail, if every configured element of a set block refits |
| ProposedStateTakeover.StableIffRefits | pkg/controller/proposed_state.go:422-449 | an element of a set block planned next to one that is configured to what was made of it, but for a computed leaf: planned again, the two stay exactly if the first refits; otherwise the second takes over the leaf and becomes equal to it |
| ProposedStateTakeover.TakeoverNeverFails | pkg/controller/proposed_state.go:592-668 | neither planning these two nor planning them again can fail |
| ProposedStateTakeover.ReplanChanges | pkg/controller/proposed_state.go:87-142 | every schema that has a set block, at any depth below lists and single blocks, whose elements have a computed leaf and an attribute that does not refit when it is left null, has a prior state and a configuration whose plan changes when it is planned again, although neither planning can fail |
| ProposedStateTakeover.RulesChange | pkg/controller/proposed_state.go:422-449 | such a schema: a set of rules with a computed port and a target whose identity is computed |
| ProposedStateReplan.PlannedOverItself | pkg/controller/proposed_state.go:87-142 | a configuration planned over itself is itself, whatever is computed |
| ProposedStateReplan.PlannedFits | pkg/controller/proposed_state.go:592-668 | a planned set element fits the configured one it was planned for, with a prior element or without, if it refits or is one of a nested attribute |
| ProposedStateReplan.SetFixedPoint | pkg/controller/proposed_state.go:400-465 | planning a set over its own result matches slot i with slot i again, although other slots could also fit |
| ProposedStatePaths.ConfigWins | pkg/controller/proposed_state.go:484-534 | at every depth, what the configuration holds other than null is what the plan holds at the same field, index, key or set slot |
| ProposedStateProvenance.Provenance | pkg/controller/proposed_state.go:484-534 | whatever the plan holds that is not the configuration's lies under an attribute that is computed and null in the configuration; its value is the one that the prior state has at the same path, with each set slot replaced by the prior slot chosen for it, and the schema's empty value only where the prior state has nothing there; a null configuration plans the prior state |
| ProposedStateProvenance.EmptyBelow | pkg/controller/proposed_state.go:156-179 | what lies below the empty value of an attribute is the empty value of the nested attribute there |
| ProposedStateSets.SetCorrelation | pkg/controller/proposed_state.go:400-465 | no prior element serves two configured ones; in a block, every leaf of a chosen prior element is kept and differs from the configured one only where it is computed and left null; a configured element goes without only if all that fit are taken, and is then planned as it stands exactly if it is one of a nested attribute, or of a block and leaves nothing null that would be filled in |
| ProposedStateSets.ElementAbsorbs | pkg/controller/proposed_state.go:592-668 | a prior element of a set block that is accepted for a configured one, by a walk that ends without a failed assertion, agrees with it at every leaf, at any depth, but for computed ones left null, and the merge keeps all its leaves |
| ProposedStateSets.LeafElementsVerbatim | pkg/controller/proposed_state.go:400-465 | in a set block of leaf attributes, what is planned for an element is the chosen prior element, or else the configured one, verbatim |
| ProposedStateSets.PairedByShape | pkg/controller/proposed_state.go:592-668 | in a set of nested attributes, of any schema, other values in the same places of both sets are paired alike |
| ProposedStateSets.NestedSetsPairInOrder | pkg/controller/proposed_state.go:592-668 | in a set of nested attributes whose shapes all fit each other, the i-th prior element is merged into the i-th configured one whatever they hold, so all pairs differ in computed attributes only exactly when those in order do |
| ProposedStateSets.NumberOfAnother | pkg/controller/proposed_state.go:626-633 | with its predecessor removed, an element of a set of nested attributes gets the predecessor's computed number; in a set block it keeps its own |
| ProposedStateLaws.ChoicesAreOneToOne | pkg/controller/proposed_state.go:424-460 | no prior element is chosen twice, nor one that was marked used before |
| ProposedStateLaws.ChoicesAreMaximal | pkg/controller/proposed_state.go:424-460 | a configured element goes without a prior one only if every prior element that fits it has been given to an earlier one |
| ProposedStateLaws.ElementsFollowChoices | pkg/controller/proposed_state.go:400-465 | each planned element is its configured one merged with the chosen prior element, which fits, or with none |
| ProposedStateLaws.SelfElement | pkg/controller/proposed_state.go:196-219 | an element planned over itself is itself, at every nesting |
| ProposedStateLaws.ObjectOverNothing | pkg/controller/proposed_state.go:95-104 | without a prior object, a configured one of a block is planned as it stands exactly if it leaves nothing null that would be filled in, and fits what is planned exactly if it refits |
| ProposedStateLaws.NullElement | pkg/controller/proposed_state.go:196-219 | without a prior element, a configured one of a nested attribute is planned as it stands |
| ProposedStateWalk.ObjectEnds | pkg/controller/proposed_state.go:592-668 | the walk over an element of a set block accepts in every order of the fields exactly if the element fits, and in no order otherwise; some order ends with the failed assertion exactly if fields lead to an element of a list or map that is in both and differs |
| ProposedStateWalk.InSomeOrderIff | pkg/controller/proposed_state.go:599-665 | a loop that stops at the first step that does not accept can end, over all orders, in just the ways its steps can, and accepts only if all do |
| ProposedStateWalk.ListItemFails | pkg/controller/proposed_state.go:647 | an element with a list of items, whose identity is computed, and what was made of it: the walk ends with the failed assertion whatever the order |
| ProposedStateWalk.Visit | pkg/controller/proposed_state.go:592-668 | the recursive visit ends in one of the ways of the walk, accepts exactly a prior element that fits, and fails only at a block element where some order leads to the assertion |
| ProposedStateWalk.VisitFields | pkg/controller/proposed_state.go:599-665 | the loop over the fields of an object, in any order, ends as one of the orders of its steps does |
| ProposedState.EmptyValue | pkg/controller/proposed_state.go:144-154 | the synthetic prior value conforms to the schema |
| ProposedState.EmptyAttribute | pkg/controller/proposed_state.go:156-179 | the empty value of an attribute conforms to it, whatever its nesting |
| ProposedState.EmptyBlock | pkg/controller/proposed_state.go:181-192 | the empty value of a block conforms to it |
| ProposedState.ProposedNew | pkg/controller/proposed_state.go:87-142 | the plan conforms to the schema whenever prior state and configuration do |
| ProposedState.FirstMatch | pkg/controller/proposed_state.go:424-445 | the scan stops at the first prior element that is unused and fits |
| ProposedStateLoops.ProposeNew | pkg/controller/proposed_state.go:87-142 | the loops over attributes and blocks, in any order, compute the recursive merge, or nothing where the walk of a correlation can fail |
| ProposedStateLoops.ProposeAttributes | pkg/controller/proposed_state.go:484-534 | the attribute loop with its computed, nested and plain cases computes the merge of every attribute |
| ProposedStateLoops.ProposeAttribute | pkg/controller/proposed_state.go:502-529 | one attribute: the prior value where it is computed and null in the configuration, unless the prior value must have been configured; else the merge or the configured value |
| ProposedStateLoops.ProposeBlocks | pkg/controller/proposed_state.go:127-138 | the block loop, in any order, computes the merge of every block, or nothing where one of them can fail |
| ProposedStateLoops.ProposeBlock | pkg/controller/proposed_state.go:221-261 | a null block is kept, any other is merged by its nesting mode |
| ProposedStateLoops.ProposeElement | pkg/controller/proposed_state.go:196-219 | the dispatch between the pseudo-schema of a block and a nested attribute |
| ProposedStateLoops.ProposeNesting | pkg/controller/proposed_state.go:263-292 | the dispatch on the nesting mode |
| ProposedStateLoops.ProposeList | pkg/controller/proposed_state.go:294-355 | elements are merged with the prior element of the same index, surplus ones are taken from the configuration |
| ProposedStateLoops.ProposeMap | pkg/controller/proposed_state.go:357-398 | elements are merged with the prior element of the same key |
| ProposedStateLoops.ProposeSet | pkg/controller/proposed_state.go:400-465 | the loop with its `used` array computes the one-to-one correlation and the merges, or nothing where a pair that is compared, or a merge, can fail |
| ProposedStateLoops.TakePrior | pkg/controller/proposed_state.go:424-445 | the inner scan marks exactly the first unused prior element that fits, or no element; it fails only at an unused one before that |
| TerraformConversion.ToTerraformAndBack | pkg/config/tf_conversion.go:71-82 | from schema traversal to both conversions: every CRD-shaped value becomes a Terraform-shaped one with singleton lists, and comes back unchanged |
| TerraformConversion.FromTerraformAndBack | pkg/config/tf_conversion.go:71-82 | Terraform-shaped values are refused exactly when a registered list has several items, and survive the way there and back exactly when every registered list has one |
| TerraformConversion.TraverseSchemas | pkg/config/schema_conversions.go:41-52 | from an empty configuration, exactly the singleton lists of the schema end up registered, and exactly those are marked as embedded objects |
| TerraformConversion.TFListConversionPaths | pkg/config/resource.go:916-922 | the registered Terraform paths, each once, in no particular order |
| TerraformConversion.ConvertParameters | pkg/config/tf_conversion.go:71-82 | converting with the registered paths is the structural conversion of the schema |
| ListConversionLaws.ToListsAndBack | pkg/config/conversion/list_conversion.go:93-161 | to singleton lists and back is the identity on every CRD-shaped value, for any order the paths come in |
| ListConversionLaws.ToObjectsAndBack | pkg/config/conversion/list_conversion.go:93-161 | to embedded objects fails exactly for a registered list of several items; the way back gives the original exactly when no registered list is empty |
| ListConversionLaws.EmptyListLost | pkg/config/conversion/list_conversion.go:133-148 | an object whose registered list is empty converts without an error and comes back with a list of one item |
| ListConversionLaws.ConversionRefinesRecursion | pkg/config/conversion/list_conversion.go:93-161 | rewriting path by path in sorted order computes one recursion over the schema |
| ListConversionLaws.ParentSortsFirst | pkg/config/conversion/list_conversion.go:96-103 | a path sorts before every path below it, which is what makes the order right |
| ListConversionLaws.SortedIsOrdered | pkg/config/conversion/list_conversion.go:96-103 | after sorting, no path comes after one it has to precede, in either mode |
| ListConversionLaws.ToListsSucceeds | pkg/config/conversion/list_conversion.go:120-132 | no CRD-shaped value is refused, and the result has exactly one item in each registered list |
| ListConversionLaws.ToObjectsSucceedsIff | pkg/config/conversion/list_conversion.go:133-148 | the structural conversion fails exactly when a registered list has more than one item |
| ListConversionLaws.ObjectsRoundTrip | pkg/config/conversion/list_conversion.go:93-161 | the structural conversions undo each other from the CRD side |
| ListConversionLaws.ListsRoundTripIff | pkg/config/conversion/list_conversion.go:93-161 | from the Terraform side they do so exactly when every registered list has one item |
| ListConversionLaws.ObjectFieldwise | pkg/config/conversion/list_conversion.go:106-158 | sorted paths convert an object field by field |
| ListConversionLaws.ListItemwise | pkg/config/conversion/list_conversion.go:106-158 | paths below a wildcard convert a list item by item |
| ListConversionLaws.MapValuewise | pkg/config/conversion/list_conversion.go:106-158 | and a map value by value, since a wildcard expands over objects too |
| ListConversion.SortPaths | pkg/config/conversion/list_conversion.go:94-103 | the sorted copy is ordered and has exactly the given paths |
| ListConversion.Convert | pkg/config/conversion/list_conversion.go:93-161 | the loop over sorted paths computes the composition of their conversions, or the error of the first that fails |
| ListConversion.ConvertPath | pkg/config/conversion/list_conversion.go:107-158 | rewriting the expansions of one path one at a time, in any order, rewrites all of them at once; it fails exactly when the path cannot be expanded or a value cannot be converted |
| ListConversion.SetValue | pkg/config/conversion/list_conversion.go:55-73 | the last entry of the parent is overwritten and nothing else |
| SchemaTraversal.Traverse | pkg/schema/traverser/traverse.go:87-142 | exactly the singleton lists below the node are registered, whatever the iteration order, and older registrations stay |
| SchemaTraversal.VisitEntry | pkg/schema/traverser/traverse.go:91-138 | the loop body registers exactly the singleton lists at and below one entry |
| SchemaTraversal.ResourceConfig.VisitResource | pkg/config/schema_conversions.go:67-78 | a list or set of at most one item is registered under its Terraform path, anything else is not |
| SchemaTraversal.ResourceConfig.AddSingletonListConversion | pkg/config/resource.go:1157-1165 | the registration of one path, and the mark of the schema element there, its path without wildcards, as an embedded object |
| AsyncProtocol.NoLostWakeup | pkg/controller/external_async_tfpluginsdk.go:140-276 | in every reachable state, a worker that has ended had its callback ask for a reconcile, or the call that started it returned or is about to return an error |
| AsyncProtocol.RunningMeansOneWorker | pkg/terraform/operation.go:25-81 | in every reachable state an operation is running exactly when one worker is between its start and its end, never two, and its type and start time are that worker's |
| AsyncProtocol.ProviderCallsExclude | pkg/controller/external_async_tfpluginsdk.go:118-276 | no two provider calls of one resource overlap, the observation of the reconciler included |
| AsyncProtocol.FailureSurvives | pkg/controller/external_async_tfpluginsdk.go:118-138 | a recorded failure stays until a later worker records its result or an observation finds the resource existing, up to date and not deleted |
| AsyncProtocol.RecordedResult | pkg/controller/external_async_tfpluginsdk.go:140-276 | over runs: once a worker has recorded the result of its provider call, that is the error of the operation until a later worker records its own or an observation clears it |
| AsyncProtocol.SkippedDeleteIsCovered | pkg/controller/external_async_tfpluginsdk.go:232-246 | a Delete that starts nothing finds a delete that is running or has ended |
| AsyncProtocol.InvariantHolds | pkg/controller/external_async_tfpluginsdk.go:118-276 | the invariant behind these laws holds in every reachable state of both clients |
| Operations.Operation.MarkStart | pkg/terraform/operation.go:25-37 | starting is refused while an operation is running; a start keeps the last error |
| Operations.Operation.MarkEnd | pkg/terraform/operation.go:39-44 | the end is marked and nothing else changes |
| Operations.Operation.Clear | pkg/terraform/operation.go:58-68 | all is reset, the error only if it need not be preserved |
| Operations.Operation.Flush | pkg/terraform/operation.go:52-54 | all is reset, the error included |
| Operations.Operation.IsRunning | pkg/terraform/operation.go:77-81 | whether a start has been marked and no end |
| Operations.Operation.IsEnded | pkg/terraform/operation.go:70-74 | whether an end has been marked |
| Operations.Operation.SetError | pkg/terraform/operation.go:98-102 | the error is replaced and nothing else changes |
| WorkspaceProtocol.InUseCountsUsers | pkg/terraform/provider_scheduler.go:85-104 | with any number of workspaces, the in-use count of each runner is the number of workspaces between an increment and its decrement |
| WorkspaceProtocol.BracketsMatch | pkg/terraform/workspace.go:402-410 | a release goes to the entry that was incremented, even though the receiver is read anew, and is never dropped |
| WorkspaceProtocol.OnlyIdleRunnersAreStopped | pkg/terraform/provider_scheduler.go:144-182 | a runner is stopped or replaced only while no workspace uses it |
| WorkspaceProtocol.RetryMeansInUse | pkg/terraform/provider_scheduler.go:150-158 | a caller is told to retry only while some workspace uses the runner |
| WorkspaceProtocol.RunningIsReported | pkg/terraform/workspace.go:269-285 | a running operation is an apply or a destroy, and a Refresh or Import that saw one running reports it in progress, even if it ends in between |
| WorkspaceProtocol.TerraformRunsExclude | pkg/terraform/workspace.go:165-246 | no synchronous run overlaps an asynchronous one in the same workspace |
| WorkspaceProtocol.InvariantHolds | pkg/terraform/workspace.go:147-246 | the invariant behind these laws holds in every reachable state |
| Scheduler.SharedProviderScheduler.Start | pkg/terraform/provider_scheduler.go:144-182 | reuse, retry, refusal or a fresh runner, and what the table of runners is afterwards |
| Scheduler.SharedProviderScheduler.Increment | pkg/terraform/provider_scheduler.go:85-91 | one more user and one more invocation of that runner |
| Scheduler.SharedProviderScheduler.Decrement | pkg/terraform/provider_scheduler.go:93-102 | one user fewer, never below zero |
| AnnotationConversion.ThereAndBack | pkg/controller/conversion/functions.go:73-82 | a whole chain to the version without the fields and back restores the non-null value at every expansion of every registered path, whatever the annotation held and however the paths overlap; it fails exactly when a path cannot be expanded |
| AnnotationConversion.ParkedIsExact | pkg/config/conversion/conversions.go:465-510 | after parking a path, the entries that expand it are exactly the current values, with no stale index left, and all others are unchanged |
| AnnotationConversion.ParkedAllIsExact | pkg/config/conversion/conversions.go:433-460 | the same for a chain of paths that may overlap |
| AnnotationConversion.ExpandIsExact | pkg/config/conversion/conversions.go:627-656 | the expansions of a path in a document are exactly the paths that match it and hold a value there |
| AnnotationConversion.ConvertToAnnotation | pkg/config/conversion/conversions.go:433-564 | one path is parked in place; the target is written exactly when there is something to store or a stale entry to remove, and left alone on an error |
| AnnotationConversion.DeleteStale | pkg/config/conversion/conversions.go:480-489 | exactly the entries that expand the path are deleted, and it is told whether there were any |
| AnnotationConversion.StoreCurrent | pkg/config/conversion/conversions.go:490-498 | the current value is stored for each expansion that has one, over whatever was there |
| AnnotationConversion.ConvertFromAnnotation | pkg/config/conversion/conversions.go:566-619 | exactly the non-null entries that expand the path are set, in some order, and it is told whether there is an annotation; an error comes from an entry that cannot be set; values of a matching document are all restored and what agreed before still does |
| AnnotationConversion.RunToAnnotation | pkg/controller/conversion/functions.go:73-82 | the chain parks each of its paths in turn and stops at the first that cannot be expanded |
| AnnotationConversion.RunFromAnnotation | pkg/controller/conversion/functions.go:73-82 | the documents of the chain, each the restoration of the one before, up to the end or the first error; values of a matching document are restored at every entry that some path covers |
| AnnotationConversion.SetRestores | pkg/config/conversion/conversions.go:612-614 | setting a value the other document holds succeeds, arrives, and keeps the documents of one shape, missing parents and short lists included |
| AnnotationConversion.SetKeeps | pkg/config/conversion/conversions.go:612-614 | and disturbs no place at which the documents agreed |
| Migration.MigrateCRD | pkg/config/crd_migrator.go:114-205 | under arbitrary concurrent writes and deletes: every version an object is stored in stays listed; the list is narrowed only when no object is left in another version; a list failure, a patch failure other than not-found, or a missing permission leaves it as it was; with no retry steps, success is reported |
| Migration.UpdateCRDStorageVersion | pkg/config/crd_migrator.go:221-238 | the stored versions are narrowed or left as they were, and narrowed if success is reported after at least one attempt |
| Migration.ListWithRetry | pkg/config/crd_migrator.go:153-161 | the pages of one list cover every object not in the storage version, whatever is retried |
| Migration.PatchWithRetry | pkg/config/crd_migrator.go:163-176 | after a patch or a not-found the object is not stored in another version, and no other object has become stale |
| Migration.InterferenceHeals | pkg/config/crd_migrator.go:148-151 | other clients never bring about an object stored in another version |
| Migration.StorageVersionOf | pkg/config/crd_migrator.go:117-128 | empty exactly if no version is marked as stored, and otherwise the first one marked |
| References.ReferenceEqualsTarget | pkg/registry/reference/resolver.go:156-199 | in an acyclic context, a reference that is a direct value of a map and whose target is a string ends equal to the final value of the target, whatever the iteration order |
| References.ResolutionContext.ResolveReferencesOfPaved | pkg/registry/reference/resolver.go:146-154 | resolution ends on every context, cyclic ones included, visits each manifest at most once, and in an acyclic context leaves the manifest in its final form or fails exactly when there is none; the targets of its references have been visited |
| References.ResolutionContext.ResolveReferences | pkg/registry/reference/resolver.go:156-199 | the map at a location is resolved in place; manifests visited before are not touched |
| References.ResolutionContext.ResolveEntry | pkg/registry/reference/resolver.go:157-198 | the loop body for one key puts its value in place and leaves all other keys alone |
| References.ResolutionContext.ResolveValue | pkg/registry/reference/resolver.go:156-199 | an entry is searched, replaced or left, by its kind |
| References.ResolutionContext.ResolveItems | pkg/registry/reference/resolver.go:164-173 | only the maps among the items of a list are searched |
| References.ResolutionContext.ResolveString | pkg/registry/reference/resolver.go:175-196 | a reference into the context becomes the string its target has after resolution, is left if the target has no such field, and fails if that is no string |
| References.ResolveAll | pkg/examples/example.go:102-112 | all manifests of an acyclic context resolved in any order: an error exactly if some manifest has no final form, and otherwise every direct reference to a target that is a string equals the string its target then has |
| References.ResolveFrom | pkg/registry/reference/references.go:65-81 | one manifest resolved from the start: the targets of its direct references have been visited, and the references of all visited manifests equal what their targets hold |
| References.ProgressSettles | pkg/registry/reference/resolver.go:146-199 | whenever no manifest is being worked on, the references of the visited ones equal their targets and the others are as they were |
| References.DirectTargetVisited | pkg/registry/reference/resolver.go:175-190 | the target of a direct reference of a finished manifest has been visited |
| References.ShapeStays | pkg/registry/reference/resolver.go:156-199 | resolution puts strings for strings and changes nothing else |
| References.DirectStringResolves | pkg/registry/reference/resolver.go:175-196 | a string in a direct position resolves where it stands |
| ReconciliationPolicy.Run | pkg/reconciler/reconciliationpolicy/reconciler.go:89-134 | after any history of reconciles, requeues, forgets and finalizer removals, the registry of shared limiters holds what a plain map of overrides with their counts would |
| ReconciliationPolicy.CountSinceRestart | pkg/internal/ratelimiter/encapsulating.go:113-139 | the retry count of an overridden request is the number of its waits since it was last forgotten or given a key it did not have |
| ReconciliationPolicy.DelayAfterHistory | pkg/reconciler/reconciliationpolicy/reconciler.go:89-134 | what an overridden request waits next, after any history: the delays it was given last, the base doubled once for each of its waits since it was last forgotten or given others, up to the maximum |
| ReconciliationPolicy.KeyLastGiven | pkg/reconciler/reconciliationpolicy/reconciler.go:112-132 | the key of an override is the one its request was given last, and nothing has dropped it since |
| ReconciliationPolicy.ExponentialFailureRateLimiter.SetRateLimiter | pkg/reconciler/reconciliationpolicy/reconciler.go:89-134 | the override follows the policy: its delays where given, else the defaults; a policy that is gone drops it; a missing object changes nothing; a failed lookup is an error and changes nothing |
| ReconciliationPolicy.ExponentialFailureRateLimiter.RemoveFinalizer | pkg/reconciler/reconciliationpolicy/finalizer.go:68-82 | a successful removal leaves no trace of the request in the registry or in any keyed limiter; a failed one leaves all of it |
| ReconciliationPolicy.ExponentialFailureRateLimiter.NumRequeues | pkg/internal/ratelimiter/encapsulating.go:134-139 | the count of the plain map, for overridden requests and others |
| ReconciliationPolicy.ExponentialFailureRateLimiter.When | pkg/internal/ratelimiter/encapsulating.go:113-119 | the delay follows the request's own policy or the defaults, and its waits; one more wait of that request and of no other |
| ReconciliationPolicy.ExponentialFailureRateLimiter.Forget | pkg/internal/ratelimiter/encapsulating.go:124-129 | no waits of that request; its override stays |
| RateLimiting.EncapsulatingRateLimiter.Add | pkg/internal/ratelimiter/encapsulating.go:42-60 | the request joins the bucket of its key, leaves and is forgotten by the old one, and an empty bucket goes; a bucket keeps its limiter; a request's waits start anew exactly when its key changes |
| RateLimiting.EncapsulatingRateLimiter.Remove | pkg/internal/ratelimiter/encapsulating.go:64-70 | the request leaves its bucket and is forgotten by its limiter; the default limiter is not touched |
| RateLimiting.EncapsulatingRateLimiter.Cleanup | pkg/internal/ratelimiter/encapsulating.go:76-98 | the request leaves its bucket, only its own limiter changes, and an empty bucket goes |
| RateLimiting.EncapsulatingRateLimiter.When | pkg/internal/ratelimiter/encapsulating.go:113-119 | the limiter of the request's key, or else the default one, gives the delay for the request's count and counts one more; for an overridden request the count is its waits |
| RateLimiting.EncapsulatingRateLimiter.Forget | pkg/internal/ratelimiter/encapsulating.go:124-129 | that limiter forgets the request, which stays in its bucket |
| RateLimiting.EncapsulatingRateLimiter.NumRequeues | pkg/internal/ratelimiter/encapsulating.go:134-139 | the count of that limiter, which is the request's waits as long as every new key brings an unused limiter |
| RateLimiting.AddedRegistered | pkg/internal/ratelimiter/encapsulating.go:42-60 | a request is in a key's bucket exactly when it maps to the key, and no bucket is empty: kept by adding |
| RateLimiting.RemovedRegistered | pkg/internal/ratelimiter/encapsulating.go:64-98 | the same, kept by removing, after which no bucket has the request |
| RateLimiting.AddedCounted | pkg/internal/ratelimiter/encapsulating.go:42-60 | a limiter holds retry state for members of its bucket only, and counts their waits: kept by adding |
| RateLimiting.RemovedCounted | pkg/internal/ratelimiter/encapsulating.go:64-98 | the same, kept by removing |
| IgnoredDiffs.CoveredIff | pkg/controller/ignored_tfpluginsdk.go:22-66 | what initProvider sets is missing from forProvider exactly when it lies at or below an ignored path |
| IgnoredDiffs.PrefixFree | pkg/controller/ignored_tfpluginsdk.go:22-66 | no ignored path lies below another |
| IgnoredDiffs.GetIgnoredFieldsMap | pkg/controller/ignored_tfpluginsdk.go:22-45 | the recursion over maps, in any order, and arrays finds exactly the positions that only initProvider has, each once |
| IgnoredDiffs.GetIgnoredFieldsArray | pkg/controller/ignored_tfpluginsdk.go:49-66 | the same for arrays, where a surplus item is found even if it is null |
| IgnoredDiffs.GetIgnoredField | pkg/controller/ignored_tfpluginsdk.go:33-40 | a field that both have is searched if it is a map or an array |
| IgnoredDiffs.InstanceDiff.FilterInitExclusiveDiffs | pkg/controller/external_tfpluginsdk.go:353-407 | exactly the keys at or below ignored paths, the tags_all copies of removed tags keys, and the length keys of their collections leave the diff, whatever the iteration order |
| IgnoredDiffs.InstanceDiff.DeleteBelow | pkg/controller/external_tfpluginsdk.go:355-374 | one round over the keys removes those at or below the path, and the copies of those under tags, although keys vanish during the round |
| IgnoredDiffs.InstanceDiff.DeleteLengthKeys | pkg/controller/external_tfpluginsdk.go:387-407 | exactly the length keys next to ignored paths are removed |
| IgnoredDiffs.ExclusiveLeaves | pkg/controller/external_tfpluginsdk.go:353-407 | nothing that only initProvider sets stays in the diff |
| IgnoredDiffs.ForProviderStays | pkg/controller/external_tfpluginsdk.go:353-407 | no key that forProvider has leaves it, unless the key looks like a length key or a tags_all copy |
| IgnoredDiffs.FilterIdempotent | pkg/controller/external_tfpluginsdk.go:353-407 | filtering again removes nothing |
| LateInitialization.CarriedIff | pkg/resource/lateinit.go:242-433 | at any depth, every observed value that no filter is passed on the way to is carried over with its leaf, length or keys, and wherever else something is, it is zero |
| LateInitialization.LeafCarriedIff | pkg/resource/lateinit.go:242-433 | so a leaf other than the zero one is carried over exactly where it is observed and no filter is passed |
| LateInitialization.SecondRunIsQuiet | pkg/resource/lateinit.go:242-315 | a second run with the same observed object changes nothing, reports nothing and fails on nothing |
| LateInitialization.InitializeTwice | pkg/resource/lateinit.go:216-239 | over a whole object: set fields stay, and after a run without error the next one changes, reports and fails on nothing |
| LateInitialization.LateInitialize | pkg/resource/lateinit.go:216-239 | nothing happens if an object is missing; otherwise it fails exactly when a field has items of an unsupported kind, and without an error set fields stay, unset ones get what is carried, and something is stored unreported exactly when all there is to store is hollow |
| LateInitialization.UnreportedIff | pkg/resource/lateinit.go:216-239 | over a whole object, something is stored and nothing reported exactly when an unset field is to get a pointer to a struct in which there is nothing to carry, and no unset field has anything to carry |
| LateInitialization.UnreportedChange | pkg/resource/lateinit.go:317-347 | such an object: its one field is an unset pointer to a struct of one plain field, and it is set without a report |
| LateInitialization.SubstanceIff | pkg/resource/lateinit.go:317-347 | the nested walk reports a change exactly when the observed value, by itself, has something to carry |
| LateInitialization.HandleStruct | pkg/resource/lateinit.go:242-315 | set fields never change, an error included; each unset field gets the observed value minus what is filtered; a report is made exactly when something was carried; it fails exactly when an unset, unfiltered field has items of an unsupported kind, and then the fields before it are done and those after it untouched |
| LateInitialization.HandlePtr | pkg/resource/lateinit.go:317-347 | an unset pointer gets a filtered copy of the struct, or the value itself |
| LateInitialization.HandleSlice | pkg/resource/lateinit.go:349-390 | item for item, the filtered copies, as many as observed |
| LateInitialization.HandleMap | pkg/resource/lateinit.go:392-433 | key for key, the filtered copies, in any order |
| LateInitialization.NameFiltered | pkg/resource/lateinit.go:254-274 | whether some name filter or some filled conditional filter matches |
| LateInitialization.ValueFiltered | pkg/resource/lateinit.go:285-295 | whether some value filter matches |
| ExternalNames.NameRecoveredIff | pkg/config/externalname.go:171-212 | a name printed by a template is read back exactly when it has no character the reading splits on, provided its neighbours are literals and, between two of them, as many separators are printed before it as are counted in the template |
| ExternalNames.FreeNamesRecoveredIff | pkg/config/externalname.go:195-212 | between two literals, all names free of both are read back exactly when as many separators are printed before the name as are counted, or fewer while none is printed behind it |
| ExternalNames.PlainCounts | pkg/config/externalname.go:199-205 | the counts agree when no action before the name has the separator |
| ExternalNames.LastPieceAfter | pkg/config/externalname.go:199-205 | the last piece of a split after n separators is what follows the n-th, or the last one |
| SecretKeys.RoundTripIff | pkg/resource/sensitive.go:428-460 | from path to text to path: a field path without numeric field names comes back from its secret key exactly when it starts with a name without dots, has such a name behind each index, and no name with a number between two of its dots |
| SecretKeys.RoundTripExactly | pkg/resource/sensitive.go:428-460 | the same for all field names: what looks like an index comes back exactly if it is one and is read in brackets, or is none and is not |
| SecretKeys.FieldPathToSecretKey | pkg/resource/sensitive.go:439-460 | the loop prints one component per segment, names with dots between three dots each, and the first dot is cut off |
| SecretKeys.TextRead | pkg/resource/sensitive.go:428-431 | on the text of a key, the three expressions leave one piece per component: names with dots in brackets, and in brackets the number at the end and those between two dots whose first one the match before has not used up |
| SecretKeys.KeyRead | pkg/resource/sensitive.go:428-437 | what is left parses to one segment per component, or to nothing if a name with dots has a number between two of them |
| SecretKeys.BlockFirst | pkg/resource/sensitive.go:428-437 | a key that starts with a name with dots is read as nothing, or as a path whose first name has lost its first character |
| SecretKeys.AddressLost | pkg/resource/sensitive.go:428-460 | the path of an address below hosts, printed and read back, is not the same |
| SecretKeys.DecimalParses | pkg/resource/sensitive.go:453-455 | a printed index parses to itself |
| SecretKeyText.EndOfTail | pkg/resource/sensitive.go:430 | the expression for an index at the end brackets the last piece, if it is a number behind a dot, and nothing else |
| SecretKeyText.MiddleOfRendered | pkg/resource/sensitive.go:431 | the expression for an index between dots, scanning from the left, brackets every second number of a run, and works on each bracketed name by itself |
| SecretKeyText.NameInBrackets | pkg/resource/sensitive.go:431 | that expression leaves a name in brackets alone, unless it has a number between two dots; then it opens another bracket in it |
| SecretKeyText.ParseOfRendered | pkg/resource/sensitive.go:432 | the parser reads what is left piece by piece, an index where there is a number of at most 32 bits in brackets, and refuses a bracket within brackets |

## Left out

Proposed state

- Unknown values, null list and set elements, tuple-typed dynamic blocks and values of mismatched types.
- ReplanIsFixedPoint: the other half is for elements with a computed leaf beside. Without one, whether planning again
  changes something depends on the other elements of the set, whose lists or maps could be taken over.
- ReplanChanges: leaves out sets within sets. There the outer element does not fit what was planned for it, and is itself
  one that does not refit.
- ProposeNew: plans nothing only where the walk can fail; whether it does fail is up to the order of the fields.
- ValidPriorFromConfig: two sets are equal here when they have the same members in the same order, the library's order of
  iteration.
- OptionalValueNotComputable: the walk is modelled as the code performs it, where element steps do not resolve against
  the nested object, so that only single-nested attributes can be found to hold configured values.

List conversion and traversal

- `ConvertOptions.ListInjectKeys`, and the sharing of nested maps between the parameters and the result: parameters are
  values here, and what is overwritten in place is the parameter value threaded through the loop.
- Nulls at composite nodes of CRD- or Terraform-shaped values.
- The text of field paths: paths are sequences of segments, rendered to text only to be sorted. Field names with dots
  or brackets in them.
- The camel-case function of CRD paths is a parameter.

Asynchronous operations, workspaces, scheduler

- The content of conditions, observations and callbacks, deadlines and the cancellation of contexts, and metrics.
- What recovers an external name from a failed creation: only that the observation then ends early.
- Starting, attaching to and killing processes, the environment and files of a workspace, and the output of Terraform.
- ReuseBudget: ten per cent over the time to live is computed on integers, not in floating point.
- The per-workspace and the no-op scheduler, and workspace removal.

Annotations

- The JSON text of the annotation, taken as an exact inverse on the modelled values, and annotations that are no JSON.
- The choice of applicable versions, and conversions of other kinds in the same chain.
- Registered paths with fixed indices: the paths have fields and wildcards.

Migration

- The discovery of CRDs, the timing of backoffs, and the permission check beyond its three outcomes.
- Deletion of the CRD and a change of its storage version during the migration.

References

- The parsing of references and of paths with indices (`getRefParts`, `convertTFPathToFieldPath`): both are parameters.
- Collecting the manifests of a context.
- ResolveFrom: the root is a member of the context here; the source paves it separately, so that its tree and the one of
  the context are two copies, of which resolution rewrites the first from the outside and the second when a reference
  leads to it.

Rate limiting

- Backoff: the library's limiter computes with floating point numbers, the model with integers.
- Nil limiters, and requests whose key has no bucket: the registry invariant shows the second cannot arise.

initProvider diffs

- Keys with dots or per cent signs in the maps: the first are ambiguous as paths, the second are read as formatting
  directives by the nested calls.
- The order of the ignored paths, which come in map iteration order; the filter does not depend on it.
- GetIgnoredFieldsMap: requires values of the same type on both sides, which the code takes for granted and would
  panic without.
- The conversion of the parameters before the comparison and a diff that is nil.

Late initialization

- Panics of reflection (unexported fields, type assertions) and the checks that both objects are pointers to structs.
- HandleStruct: does not say what the field that failed holds after the error, since it is partly filled then.
- Sharing between the observed and the desired object: values behind non-struct pointers are copied here.
- The lookup of a conditional filter's field in spec.initProvider: the filter carries its outcome.

Printers and parsers

- RoundTripExactly: requires names with dots that do not end with one, have no three in a row and no line break, which
  the printed blocks cannot hold apart; the parsing of the path that is printed.
- NameRecoveredIff: finding the action in the template, and characters of several bytes.

Elsewhere in the repository

- Code generation, documentation scraping, example writing, AST rewriting, metrics, logging, options and test helpers.
- Type converters between numbers, strings and booleans: library arithmetic and formatting.
- Merging of annotations and status: it rests on name casing that is not part of this model.
