# Verification of the namespace hierarchy, the fair queue and the syncer

This project models the parts of the multi-tenancy repository whose correctness rests on invariants
that no single function states, and proves those invariants for all inputs, all runs and all reachable
states. `dafny verify dfyconfig.toml` checks it.

1. **The hierarchy of namespaces** (`incubator/hnc/internal/forest`, the hierarchy reconciler and its
   validators). The forest is modelled as it is: objects that point at each other, changed in place,
   with entries that are made on demand and collected, and with parent cycles. A ghost field gives the
   forest as a map from names to entries, and every method is proved against functions on that map.
   What one locked section does is a step on maps (`HierarchySteps`); the class `HierarchyReconciler.Reconciler`
   is proved to do exactly that on the objects. `ParentLinks` and `Cycles` hold the theory of parent links,
   without assuming that there are no cycles.
2. **Propagation of objects** (the object reconciler, the validators and the selectors). `Propagation` is a
   state machine of user events, a queue of keys and reconciles. `ObjectReconciler.Reconciler` is the reconciler
   on the forest of objects, and one call of its `Reconcile` is one step of that machine. Safety at an empty
   queue, progress towards it, and the exact limits of both are proved. `PropagationMoves` and `PropagationExact` add
   the reconciles and removals of namespaces that change the hierarchy meanwhile, and say exactly when that is safe;
   `LabelRuns` does the same for the tree labels, and `HierarchyRuns` shows that the reconciler on the forest of
   objects takes the steps of these runs.
3. **The fair queue** (`incubator/virtualcluster/pkg/util/fairqueue`): the queue with its weighted round
   robin, its idle-group collection and the delaying heap.
4. **Two smaller transformations**: labels, annotations and pod conditions kept in step between tenant
   and super cluster, and the hierarchy inferred from directories by `ans2hns`.

| files | content |
|---|---|
| Names, Text | names and their order, sorted listings; splitting and joining of strings |
| ParentLinks, Cycles | parent links with cycles, ancestries, upward walks |
| Objects | objects, their canonical form, copies |
| ForestState, NamespaceForest | the forest as a map, and as objects changed in place |
| HierarchySteps, SyncedEntry, HierarchyReconciler | the hierarchy reconciler as steps, what they come to, and on the objects |
| HierarchyValidator, ConfigValidator | the admission checks for parents and for types |
| Propagation, PropagationLimits, PropagationProgress | propagation down a fixed hierarchy as a state machine |
| PropagationMoves, PropagationExact, PropagationReturns | propagation while the hierarchy changes |
| LabelSync, LabelRuns, LabelReturns | when the tree-depth labels are up to date |
| PropagationBridge, ForestRecords, HierarchyRuns | the hierarchy reconciler takes the steps of these runs |
| ObjectReconciler | the object reconciler on the objects |
| TreeSelector | tree selectors and what they mean for propagation |
| RoundRobin, FairQueueState, FairQueueRuns, FairQueueFairness, FairQueueIdle, FairQueue | the fair queue |
| DelayingQueueRuns, DelayingQueue | the delaying queue |
| TenantSync, PodConditions | tenant and super cluster |
| PathHierarchy | the hierarchy inferred from paths |

## Where the code does not do what one might expect

In each case the model follows the code, a lemma constructs a case that fails, and another says exactly when
the code is right (for copies in runs with removals: one condition under which it is, and one under which it is not).

- `SetParent` with the current, missing parent unregisters that parent while it is still referred to:
  `ForestState.OrphanDangles`, `ForestState.ReparentClosedIff`, `NamespaceForest.Forest.SetParent`.
  `syncParent` never makes such a call.
- Copies can stay stale at an empty queue if a selector skips a namespace below one that it selects:
  `PropagationLimits.SkippedCopyGoesStale`, `PropagationLimits.SettledIffUniform`. Tree selectors that only ask
  for a name are safe, those that exclude a name are not: `TreeSelector.AskingIsSafe`, `TreeSelector.ExcludingGoesStale`.
- An own source that has vanished is forgotten without looking at the object again, so a copy can be missing
  at an empty queue: `PropagationLimits.CopyGoesMissing`, `Propagation.MissingIff`.
- The object webhook reads a missing inherited-from label as an empty one. An update that adds the label with an
  empty value passes and turns a source into a copy: `PropagationLimits.LabelledSourceGoesStale`, `PropagationLimits.LabelCanBeAddedIff`.
- If a namespace is moved away and back before one further down has been reconciled, that one finds its labels
  unchanged and does not look at its objects, which can stay wrong: `PropagationReturns.ReturnGoesStale`,
  `PropagationExact.MovingIsSettledIff`.
- The removal of a namespace tells only its parent and its children. If it had a parent, and comes back as a root before
  its child has been reconciled, the child is never halted, and the namespaces below the child are never told. They keep
  the labels of what used to be above (`LabelReturns.ReturnLosesGrandchild`, `LabelRuns.RemovalKeepsLabelsIff`,
  `LabelRuns.QuietLabelsIff`) and the copies from there (`PropagationReturns.RemovalGoesStale`,
  `PropagationMoves.UnshakenIsSettled`, `PropagationExact.LostIsSpoilt`).
- If a namespace with children is removed before the deletion of a source in it is noticed, the notice is ignored, and
  the source stays recorded when the namespace comes back: `PropagationReturns.RecordStays`, `PropagationMoves.RemovalIsTidyIff`.
- `Done` for an item whose group has been collected makes an empty FIFO that the balancer does not know and queues
  nothing. The item is lost for good, and `Get` can crash or search for ever on later items of the group, with the lock
  held: `FairQueueRuns.LosingRun`, `FairQueueRuns.EndlessRun`, `FairQueueRuns.DoneLosesNothingIff`, `FairQueueRuns.StaysRegisteredIff`,
  `FairQueueRuns.LostForever`. A second `Done` for the same item can queue it twice: `FairQueueRuns.SecondDoneDuplicates`, `FairQueueRuns.DoneSafeIff`.
- Pod conditions of which the super cluster repeats a gated type need not settle: `PodConditions.RepeatedKindsDoNotSettle`,
  `PodConditions.ConditionsSettleIff`.
- Directories with an empty name are read as namespaces, and those below them become roots:
  `PathHierarchy.EmptyDirectoryLosesParent`, `PathHierarchy.ReadChainIff`.
- An empty segment of a tree selector is an index out of range: `TreeSelector.TrailingCommaCrashes`, `TreeSelector.GetTreeSelector`.

## Model

| member | source | states |
|---|---|---|
| `ParentLinks.CycleMadeIff` | incubator/hnc/internal/forest/namespacestructure.go:55-81 | Making `p` the parent of `n` puts `n` on a cycle exactly if `n` is `p` or one of its ancestors. |
| `ParentLinks.CycleThroughOrBefore` | incubator/hnc/internal/forest/namespacestructure.go:37-51 | After a change of one parent, every cycle either passes through the changed namespace or was there before. |
| `ParentLinks.AncestryElements` | incubator/hnc/internal/forest/namespacestructure.go:102-120 | The ancestry lists exactly the namespace and everything above it, cycle or not. |
| `ParentLinks.AncestryUnique` | incubator/hnc/internal/forest/namespacestructure.go:102-120 | The listing (root first; on a cycle, cut at the first repetition) is determined by the links. |
| `ParentLinks.OnCycleIff` | incubator/hnc/internal/forest/namespacestructure.go:125-147 | A namespace is on a cycle exactly if its ancestry is longer than one and starts with the namespace itself. |
| `Names.TextLessIff` | incubator/hnc/internal/forest/namespacestructure.go:10-20 | One name is listed before another exactly if they start alike and it then ends, or goes on with the smaller character. |
| `Cycles.CycleListingShared` | incubator/hnc/internal/forest/namespacestructure.go:122-147 | All members of one cycle give the same list, the ancestry of the least member. |
| `Cycles.ChangedAreDescendants` | incubator/hnc/internal/reconcilers/hierarchy_config.go:389-411 | Every other namespace whose ancestry changes with a parent is a descendant of the moved one, before and after. |
| `Cycles.AllWalksEndIff` | incubator/hnc/internal/forest/namespaceconditions.go:20-28 | The unprotected upward walk ends from every namespace exactly if every cycle holds a halted namespace. |
| `Cycles.RelinkKeepsHit` | incubator/hnc/internal/reconcilers/hierarchy_config.go:485-510 | If a changed namespace is halted whenever it is then on a cycle, and no other halted namespace with a parent is lost, every cycle still holds a halted one. |
| `Cycles.RefusedIffCycle` | incubator/hnc/internal/forest/namespacestructure.go:55-81 | The membership test of `CanSetParent` refuses exactly the changes that make a cycle through the namespace. |
| `ForestState.ReparentClosedIff` | incubator/hnc/internal/forest/namespacestructure.go:37-51 | `SetParent` leaves every parent registered exactly if it does not re-assign a missing parent whose only child this is. |
| `ForestState.OrphanDangles` | incubator/hnc/internal/forest/namespacestructure.go:37-51 | Such a call: an orphan is given its missing parent again. |
| `ForestState.CascadeStep` | incubator/hnc/internal/forest/namespace.go:131-141 | Where the search for the cascading flag continues: at the parent, unless the namespace is on a cycle. |
| `NamespaceForest.Forest.Get` | incubator/hnc/internal/forest/forest.go:74-92 | An entry is made on demand, the empty name has none, and nothing that is registered is replaced. |
| `NamespaceForest.Forest.CleanUp` | incubator/hnc/internal/forest/namespace.go:109-117 | An entry goes exactly if it neither exists nor is a parent, and the forest stays well linked: parents and children mirror each other, and every object referred to is the one registered. |
| `NamespaceForest.Forest.SetParent` | incubator/hnc/internal/forest/namespacestructure.go:37-51 | Both ends of both links are updated; the forest stays well linked if and only if the call does not dangle. |
| `NamespaceForest.Forest.UnsetExists` | incubator/hnc/internal/forest/namespace.go:85-91 | A removed namespace has no parent, its entry is kept only for its children, and the forest stays well linked. |
| `NamespaceForest.Forest.AncestryNames` | incubator/hnc/internal/forest/namespacestructure.go:102-120 | Ends in every forest and returns the ancestry. |
| `NamespaceForest.Forest.CycleNames` | incubator/hnc/internal/forest/namespacestructure.go:125-147 | Nothing off a cycle; on a cycle the ancestry of its least member. |
| `NamespaceForest.Forest.CanSetParent` | incubator/hnc/internal/forest/namespacestructure.go:55-81 | No objection exactly if performing the change leaves the namespace off every cycle. |
| `NamespaceForest.Forest.ChildNames` | incubator/hnc/internal/forest/namespacestructure.go:10-20 | The children, sorted and without repeats. |
| `NamespaceForest.Forest.PopulateDescendants` | incubator/hnc/internal/forest/namespacestructure.go:171-180 | Ends in every forest; marks only descendants, and all children of whatever it marks. |
| `NamespaceForest.Forest.DescendantNames` | incubator/hnc/internal/forest/namespacestructure.go:155-167 | Sorted, without repeats, and exactly the namespaces from which one or more parent links lead here, in every forest. |
| `NamespaceForest.Forest.AllowsCascadingDeletion` | incubator/hnc/internal/forest/namespace.go:131-141 | Ends in every forest; true exactly if the flag is set on the namespace or on an ancestor no later than the first cycle member. |
| `NamespaceForest.Forest.GetCritAncestor` | incubator/hnc/internal/forest/namespaceconditions.go:20-28 | The nearest halted namespace at or above, found by a walk that needs every cycle to be halted somewhere. |
| `HierarchySteps.DepthsExact` | incubator/hnc/internal/reconcilers/hierarchy_config.go:438-463 | Without external ancestors the depth labels are exactly ancestor -> distance, cut at and including the first halted one. |
| `HierarchySteps.SyncRelinks` | incubator/hnc/internal/reconcilers/hierarchy_config.go:228-264 | One reconcile changes no other link, and leaves the namespace present, parentless if external, and halted if on a cycle. |
| `HierarchySteps.SyncKeepsSound` | incubator/hnc/internal/reconcilers/hierarchy_config.go:228-264 | A reconcile keeps the forest sound: no dangling parent, no parent on a missing or external namespace, a halted namespace on every cycle. |
| `HierarchySteps.RemoveKeepsSound` | incubator/hnc/internal/reconcilers/hierarchy_config.go:169-179 | So does the removal of a namespace. |
| `HierarchySteps.OtherInfoKeepsSound` | incubator/hnc/internal/forest/namespaceobjects.go:9-36 | So does recording labels or source objects. |
| `HierarchySteps.ReachableWalksEnd` | incubator/hnc/internal/reconcilers/hierarchy_config.go:438-463 | In every forest reached by reconciles and removals, in any order, every cycle holds a halted namespace, and the unprotected walks end from every namespace. |
| `HierarchySteps.WhoIsAffected` | incubator/hnc/internal/reconcilers/hierarchy_config.go:389-411 | A reconcile can change the ancestry or the halting ancestor only of descendants, and only if it changed the parent or halted or resumed the namespace. |
| `HierarchySteps.SyncTouchesOnly` | incubator/hnc/internal/reconcilers/hierarchy_config.go:228-264 | A reconcile leaves every other entry as it was, and makes the namespace external exactly if HNC does not manage it. |
| `SyncedEntry.SyncTakes` | incubator/hnc/internal/reconcilers/hierarchy_config.go:228-512 | What a reconcile makes of the namespace itself, from what it reads: its parent (none if HNC does not manage it, the owner of a subnamespace that is not being deleted, or else the configured one), all its conditions in order, its anchors, flags, manager and external labels. |
| `SyncedEntry.HaltedIff` | incubator/hnc/internal/reconcilers/hierarchy_config.go:381-505 | After a reconcile the namespace is halted exactly if its parent is excluded or not known, if it is on a cycle, or if the CRD is being deleted. |
| `HierarchySteps.SyncWritesLabels` | incubator/hnc/internal/reconcilers/hierarchy_config.go:425-471 | After the reconcile the recorded labels are those of the tree as it then is. |
| `HierarchySteps.SyncOrphans` | incubator/hnc/internal/reconcilers/hierarchy_config.go:373-387 | Known namespaces stay, and the reconciled one is halted if its parent is not known. |
| `LabelSync.SyncedIsLabelled` | incubator/hnc/internal/reconcilers/hierarchy_config.go:425-471 | After its own reconcile the labels of a namespace are up to date. |
| `LabelSync.LabelsAreTheChain` | incubator/hnc/internal/reconcilers/hierarchy_config.go:438-463 | Labels that are up to date are exactly the chain of ancestors, with their distances, cut at the first halted one. |
| `LabelSync.TreeLabelsBelow` | incubator/hnc/internal/reconcilers/hierarchy_config.go:438-463 | The depth labels of any namespace: what is met on the walk, with distances, and what an external namespace at its end hands on, each value raised by the length of the walk. |
| `LabelSync.SyncedLabels` | incubator/hnc/internal/reconcilers/hierarchy_config.go:425-471 | So after its own reconcile, also below an external root. |
| `LabelRuns.ReconcileLeavesIff` | incubator/hnc/internal/reconcilers/hierarchy_config.go:228-264 | After a reconcile the labels of a namespace that was not told are right or will be looked at, exactly if it is not left behind: cut off at a child, not halted yet, of a namespace that appears. |
| `LabelRuns.RemovalKeepsLabelsIff` | incubator/hnc/internal/reconcilers/hierarchy_config.go:169-179 | A removal leaves the labels of a namespace right exactly if it did not pass the removed one on its way up to a parent. |
| `LabelRuns.RunKeepsInv` | incubator/hnc/internal/reconcilers/hierarchy_config.go:228-264 | In every run of reconciles and removals: whoever does not wait has right labels or labels that show too much, and those are looked at later, unless they are lost. |
| `LabelRuns.QuietLabelsIff` | incubator/hnc/internal/reconcilers/hierarchy_config.go:389-411 | In every such run, whenever the queue is empty, the labels of a known namespace are right if and only if it is not lost, that is, left behind and not reconciled since. |
| `LabelRuns.HaltedChildrenLoseNobody` | incubator/hnc/internal/reconcilers/hierarchy_config.go:360-371 | Nobody is lost by a namespace that appears after all its children have been halted. |
| `LabelRuns.QuietIsReady` | incubator/hnc/internal/reconcilers/hierarchy_config.go:389-411 | Without removals an empty queue means that all labels are up to date, whatever was moved, halted or resumed. |
| `LabelRuns.NewcomerKeepsReady` | incubator/hnc/internal/reconcilers/hierarchy_config.go:425-471 | The first reconcile of a namespace leaves all labels up to date. |
| `LabelRuns.GrownIsReady` | incubator/hnc/internal/reconcilers/hierarchy_config.go:425-471 | So in a forest that grows from the roots down. |
| `LabelRuns.RootAndChild` | incubator/hnc/internal/reconcilers/hierarchy_config.go:228-264 | For instance after the first reconciles of a root and of a namespace below it. |
| `LabelReturns.ReturnLosesGrandchild` | incubator/hnc/internal/reconcilers/hierarchy_config.go:169-179 | A run from the empty forest that ends with an empty queue and wrong labels: a namespace with a parent is removed and comes back as a root before its child is reconciled, and the grandchild is never told. |
| `HierarchyReconciler.Reconciler.SyncExternalNamespace` | incubator/hnc/internal/reconcilers/hierarchy_config.go:268-298 | Takes over the external tree labels; all descendants are told if the namespace becomes external or internal. |
| `HierarchyReconciler.Reconciler.SyncSubnamespaceParent` | incubator/hnc/internal/reconcilers/hierarchy_config.go:304-356 | The subnamespace annotation decides the parent; a condition is set if the anchor is missing. |
| `HierarchyReconciler.Reconciler.SyncParentOf` | incubator/hnc/internal/reconcilers/hierarchy_config.go:373-412 | The configured parent is adopted with its conditions, and the forest stays well linked; all descendants are told of a change. |
| `HierarchyReconciler.Reconciler.ChangeParent` | incubator/hnc/internal/reconcilers/hierarchy_config.go:389-411 | The members of a former cycle, both parents and all new descendants are enqueued. |
| `HierarchyReconciler.Reconciler.MarkExisting` | incubator/hnc/internal/reconcilers/hierarchy_config.go:360-371 | A namespace first seen is recorded, and its parent and children are enqueued. |
| `HierarchyReconciler.Reconciler.SyncAnchors` | incubator/hnc/internal/reconcilers/hierarchy_config.go:418-422 | Every anchor added or removed is enqueued. |
| `HierarchyReconciler.Reconciler.ChangedAre` | incubator/hnc/internal/forest/namespace.go:144-170 | The names enqueued are exactly those in only one of the two lists. |
| `HierarchyReconciler.Reconciler.SyncCritConditions` | incubator/hnc/internal/reconcilers/hierarchy_config.go:485-510 | Halted on a cycle or while the CRD is deleted; descendants are told when halting starts or stops. |
| `HierarchyReconciler.Reconciler.ComputeDepths` | incubator/hnc/internal/reconcilers/hierarchy_config.go:438-463 | The unprotected label loop ends and yields the tree labels. |
| `HierarchyReconciler.Reconciler.HaltedAncestor` | incubator/hnc/internal/reconcilers/hierarchy_config.go:512-528 | The unprotected loop ends at the nearest halted ancestor. |
| `HierarchyReconciler.Reconciler.SyncLabels` | incubator/hnc/internal/reconcilers/hierarchy_config.go:425-471 | The recorded and the returned labels are the tree labels and the other labels. |
| `HierarchyReconciler.Reconciler.SyncWithForest` | incubator/hnc/internal/reconcilers/hierarchy_config.go:228-264 | On the heap: does what the steps say, stays well linked and sound, returns the labels of the tree, and tells every namespace whose ancestry or halting ancestor has changed, the relatives of a move or of a newcomer, and every anchor added or removed; the objects are to be updated exactly if the namespace is new or its labels have changed. |
| `HierarchyReconciler.Reconciler.OnMissingNamespace` | incubator/hnc/internal/reconcilers/hierarchy_config.go:169-179 | The removal on the heap; parent and children are enqueued. |
| `HierarchyValidator.ApprovedKeepsNoOverwrites` | incubator/hnc/internal/validators/hierarchy.go:189-273 | If no source has the name of a source in a strict ancestor, an approved change of parent keeps it so, for the whole moved subtree. |
| `HierarchyValidator.NewOverwriteConflicts` | incubator/hnc/internal/validators/hierarchy.go:249-273 | An overwrite that a legal change would add is one that the conflict search finds. |
| `HierarchyValidator.ApprovedKeepsAcyclic` | incubator/hnc/internal/validators/hierarchy.go:189-228 | An approved change makes no cycle. |
| `HierarchyValidator.AdmittedRunIsSafe` | incubator/hnc/internal/validators/hierarchy.go:113-228 | A run of admitted changes stays free of cycles and of overwrites. |
| `HierarchyValidator.NoOverwritesIff` | incubator/hnc/internal/validators/hierarchy.go:249-275 | No overwrites: no recorded object of a type in propagate mode has the name of one in a namespace further up. |
| `HierarchyValidator.AdmittedRunMovesLegally` | incubator/hnc/internal/validators/hierarchy.go:189-214 | In every run of admitted changes no subnamespace and no external namespace gets another parent, every new parent is known, and nothing else changes. |
| `HierarchyValidator.CommonPrefixIsMrca` | incubator/hnc/internal/validators/hierarchy.go:358-373 | The end of the common prefix of two ancestries is the most recent common ancestor. |
| `HierarchyValidator.Validator.AncestorSourceNames` | incubator/hnc/internal/forest/namespaceobjects.go:56-83 | Exactly the names of sources at or above the namespace. |
| `HierarchyValidator.Validator.HasConflictOfType` | incubator/hnc/internal/validators/hierarchy.go:249-273 | A conflict is found exactly if a source in the moved subtree has the name of a source at or above the new parent. |
| `HierarchyValidator.Validator.HasConflict` | incubator/hnc/internal/validators/hierarchy.go:231-245 | ... over all types in propagate mode. |
| `HierarchyValidator.Validator.CheckParent` | incubator/hnc/internal/validators/hierarchy.go:189-228 | Allowed exactly for an unchanged parent or a legal one without conflicts. |
| `HierarchyValidator.Validator.GetServerChecks` | incubator/hnc/internal/validators/hierarchy.go:326-374 | Each case of the rule; with a shared root the one namespace checked is where the two ancestries part, and in a tree that is the most recent common ancestor. |
| `ConfigValidator.Validator.SubtreeSplits` | incubator/hnc/internal/validators/hncconfig.go:159-183 | A subtree is its root and the subtrees of the children. |
| `ConfigValidator.Validator.CheckConflictsForTree` | incubator/hnc/internal/validators/hncconfig.go:159-183 | The recursion ends and reports exactly the conflicts whose target is in the subtree. |
| `ConfigValidator.Validator.CheckConflictsForKind` | incubator/hnc/internal/validators/hncconfig.go:149-155 | Ends also with cycles elsewhere; reports exactly the conflicts of the plain definition whose target is in a tree. |
| `Objects.CopyIsCanonical` | incubator/hnc/internal/reconcilers/object.go:569-577 | A written copy has the canonical form of its source and names where it is from. |
| `Objects.HncKeyIff` | incubator/hnc/internal/object/object.go:13-19 | A key belongs to HNC exactly if it is some prefix without a slash that ends in `hnc.x-k8s.io`, a slash, and something. |
| `Objects.CanonicalIff` | incubator/hnc/internal/object/object.go:27-56 | Objects are canonically equal exactly if they have the same content, and the same labels and annotations under all other keys. |
| `Objects.CopyHolds` | incubator/hnc/internal/reconcilers/object.go:569-577 | A written copy has the content and every label and annotation of the source with another key, no other ones but the inherited-from label, no finalizers and no status. |
| `Objects.CleanSourceIff` | incubator/hnc/internal/reconcilers/object.go:448-471 | What is recorded of a source: everything but the annotations that are not propagated, with the managed-by label. |
| `Propagation.ReconciledIsSettled` | incubator/hnc/internal/reconcilers/object.go:228-443 | After its own reconcile an object is right: a copy of the topmost source above it, or a recorded source with none above. |
| `Propagation.OthersStaySettled` | incubator/hnc/internal/reconcilers/object.go:473-488 | An object that the reconcile of another does not enqueue is as right as before. |
| `Propagation.ReconcileKeepsInv` | incubator/hnc/internal/reconcilers/object.go:228-443 | Whatever is not waiting in the queue is right, before and after every reconcile. |
| `Propagation.EventKeepsInv` | incubator/hnc/internal/reconcilers/object.go:193-223 | So also after users create, change or delete objects. |
| `Propagation.QuiescentIsSettled` | incubator/hnc/internal/reconcilers/object.go:228-443 | In every interleaving of user events and reconciles, when the queue is empty every copy is the canonical copy of the topmost source, and every other object is recorded with no source above it. |
| `Propagation.SettledIff` | incubator/hnc/internal/reconcilers/object.go:373-427 | Settled in plain words: a copy mirrors the topmost source that is to be copied here, any other object has no such source above it and is recorded, and what is not stored is not recorded. |
| `Propagation.QuiescentCopyIsTrue` | incubator/hnc/internal/reconcilers/object.go:569-577 | Whenever the queue is empty, every copy in a live namespace has the content, the labels and the annotations of the object stored in the namespace it names. |
| `Propagation.ReconcileWritesOnly` | incubator/hnc/internal/reconcilers/object.go:228-256 | A reconcile changes nothing but the object it is for, and that only in a known namespace that is neither excluded nor halted: it writes a copy of the topmost source, or removes a copy without a source. It never removes an object of a user. |
| `Propagation.MissingIff` | incubator/hnc/internal/reconcilers/object.go:281-322 | At an empty queue a copy is missing if and only if the last reconcile of its key found that its own source had vanished under another one. |
| `Propagation.QuiescentIsComplete` | incubator/hnc/internal/reconcilers/object.go:281-322 | So no copy is missing at an empty queue if no source has vanished under a source above it. |
| `Propagation.WithoutDropsNothingVanishes` | incubator/hnc/internal/reconcilers/object.go:290-294 | Which holds whenever no source was deleted. |
| `PropagationLimits.CopyGoesMissing` | incubator/hnc/internal/reconcilers/object.go:290-294 | Wherever a source would be copied, such a run exists: it ends with an empty queue and without the copy. |
| `PropagationLimits.AdmittedEditsKeepCopies` | incubator/hnc/internal/validators/object.go:264-281 | What the webhook admits on a copy is among the events considered, and as long as the object stays a copy, it stays as right as it was; only a copy with an empty label can be turned into a source. |
| `PropagationLimits.SkippedCopyGoesStale` | incubator/hnc/internal/reconcilers/object.go:681-689 | A source skipped by a selector between two namespaces can leave a stale copy at an empty queue: the run is constructed. |
| `PropagationLimits.SettledIffUniform` | incubator/hnc/internal/reconcilers/object.go:373-389 | Propagation is right at every quiet moment of every run if and only if no selector skips a namespace below one that it selects. |
| `PropagationLimits.LabelCanBeAddedIff` | incubator/hnc/internal/validators/object.go:264-281 | The webhook lets an update turn a source into a copy exactly if the new label is empty and nothing but HNC metadata, finalizers and the status changes besides. |
| `PropagationLimits.EmptyLabelIsAdmitted` | incubator/hnc/internal/validators/object.go:264-281 | Adding the label with an empty value is admitted. |
| `PropagationLimits.LabelledSourceGoesStale` | incubator/hnc/internal/reconcilers/object.go:349-369 | Such an update of a source leaves a stale copy below it at an empty queue. |
| `PropagationProgress.ReconcileLowers` | incubator/hnc/internal/reconcilers/object.go:473-488 | Each reconcile of a waiting key lowers a potential, also when it enqueues descendants or itself. |
| `PropagationProgress.ScheduleIsBounded` | incubator/hnc/internal/reconcilers/object.go:193-223 | Without user events the queue is empty after a bounded number of reconciles, in any order. |
| `PropagationProgress.UsersStopThenSettled` | incubator/hnc/internal/reconcilers/object.go:193-223 | So when users stop, everything is right after boundedly many reconciles. |
| `PropagationMoves.NamespaceKeepsInv` | incubator/hnc/internal/reconcilers/object.go:109-121 | When a namespace is reconciled or removed, whatever is not queued in a namespace that is not stale stays right; stale are the namespaces whose way up has changed, or that became live, since their objects were last enqueued. |
| `PropagationMoves.RunKeepsInv` | incubator/hnc/internal/reconcilers/object.go:109-121 | So in every interleaving of object events, object reconciles, namespace reconciles and removals. |
| `PropagationMoves.UnshakenIsSettled` | incubator/hnc/internal/reconcilers/object.go:109-121 | So every object of a live namespace that is not stale is right when its key is not queued, but for the record of a vanished source, which only a removal can leave. |
| `PropagationMoves.RemovalIsTidyIff` | incubator/hnc/internal/forest/namespace.go:85-117 | A removal leaves such a record behind exactly if sources are recorded for the namespace and it has children. |
| `PropagationExact.RunGrows` | incubator/hnc/internal/reconcilers/hierarchy_config.go:145-166 | Without removals, whatever was above a namespace when its objects were last enqueued still is, and if it is stale, something has come above it - unless it has lost something since, or been halted. |
| `PropagationExact.LostIsSpoilt` | incubator/hnc/internal/reconcilers/object.go:193-223 | If it has lost something or been halted, removals included, some interleaving with object events ends with an empty queue of keys and a wrong copy in it. |
| `PropagationExact.GainIsWrong` | incubator/hnc/internal/reconcilers/object.go:193-223 | If something has come above it, some interleaving ends with an object of its own under a source that should have replaced it. |
| `PropagationExact.MovingIsSettledIff` | incubator/hnc/internal/reconcilers/hierarchy_config.go:145-166 | Without removals: every interleaving with object events, from whatever is stored at the start, leaves every object of a live namespace right whose key is not queued, if and only if the namespace is not stale. |
| `PropagationExact.MovingIsSettled` | incubator/hnc/internal/reconcilers/hierarchy_config.go:145-166 | So whenever the namespace does not wait for a reconcile, if no stale namespace was reconciled without an update. |
| `PropagationReturns.ReturnGoesStale` | incubator/hnc/internal/reconcilers/hierarchy_config.go:145-153 | A run of six reconciles that fails this, for any three namespaces: one is moved away and back before the one below it is reconciled. |
| `PropagationReturns.RemovalGoesStale` | incubator/hnc/internal/reconcilers/hierarchy_config.go:169-179 | Another one, for any four: a namespace with a parent is removed and comes back as a root before its child is reconciled, and the grandchild keeps copies from further up. |
| `PropagationReturns.RecordStays` | incubator/hnc/internal/reconcilers/object.go:261-275 | Another one: the deletion of a source is noticed only after the namespace has been removed, and is ignored; the namespace comes back, and the copies of the source stay. |
| `PropagationBridge.SyncIsMove` | incubator/hnc/internal/reconcilers/hierarchy_config.go:228-264 | A reconcile of the forest is such a change of the hierarchy, and halts the namespace if its parent is not known. |
| `PropagationBridge.RemovalIsMove` | incubator/hnc/internal/reconcilers/hierarchy_config.go:169-179 | So is a removal. |
| `PropagationBridge.DisturbedIsNoticed` | incubator/hnc/internal/reconcilers/hierarchy_config.go:389-411 | Whoever it disturbs is told by the reconciler. |
| `PropagationBridge.LabelledShows` | incubator/hnc/internal/reconcilers/hierarchy_config.go:438-463 | Labels that are up to date and the halting ancestor show the whole way up ... |
| `PropagationBridge.ShownIsSame` | incubator/hnc/internal/reconcilers/hierarchy_config.go:464-470 | ... and determine it. |
| `PropagationBridge.SameLabelsSameWay` | incubator/hnc/internal/reconcilers/hierarchy_config.go:464-470 | So if neither has to be written, nothing above has changed since they were. |
| `PropagationBridge.OrphansHaltedWithoutRemovals` | incubator/hnc/internal/reconcilers/hierarchy_config.go:373-387 | In every run without removals each namespace under an unknown parent is halted. |
| `PropagationBridge.RemovalHaltsOrphansIff` | incubator/hnc/internal/reconcilers/hierarchy_config.go:169-179 | A removal keeps it so exactly if every other child of the removed namespace is halted itself. |
| `ForestRecords.SyncKeepsRecords` | incubator/hnc/internal/forest/namespacestructure.go:37-51 | A reconcile of the forest keeps the recorded sources of exactly those namespaces that are known or have children. |
| `ForestRecords.RemovalKeepsRecords` | incubator/hnc/internal/forest/namespace.go:85-117 | So does a removal. |
| `HierarchyRuns.StartInStep` | incubator/hnc/internal/reconcilers/hierarchy_config.go:228-264 | The empty forest is a start of the runs. |
| `HierarchyRuns.Reconcile` | incubator/hnc/internal/reconcilers/hierarchy_config.go:145-166 | A call of the reconciler on the forest of objects is one legal step of the runs about labels and of those about propagation, which then update objects if the reconciler says so or conditions have to be written. |
| `HierarchyRuns.OnMissing` | incubator/hnc/internal/reconcilers/hierarchy_config.go:169-179 | So is its call for a namespace that is gone. |
| `ObjectReconciler.ReachableWorldIsValid` | incubator/hnc/internal/reconcilers/hierarchy_config.go:485-510 | Every forest reached by the hierarchy reconciler is one to which the propagation results apply. |
| `ObjectReconciler.Reconciler.EnqueueDescendants` | incubator/hnc/internal/reconcilers/object.go:473-488 | All descendants are enqueued, and none if the namespace is halted. |
| `ObjectReconciler.Reconciler.GetTopSource` | incubator/hnc/internal/reconcilers/object.go:373-389 | The topmost ancestor with a source of that name that selects the namespace. |
| `ObjectReconciler.Reconciler.SyncMissing` | incubator/hnc/internal/reconcilers/object.go:281-322 | A vanished source is forgotten and its descendants, but not itself, are enqueued. |
| `ObjectReconciler.Reconciler.SyncSource` | incubator/hnc/internal/reconcilers/object.go:432-443 | The cleaned object is recorded and the descendants are enqueued. |
| `ObjectReconciler.Reconciler.SyncPropagated` | incubator/hnc/internal/reconcilers/object.go:393-426 | A copy is no source; it is written, kept or deleted as the topmost source demands. |
| `ObjectReconciler.Reconciler.SyncWithForest` | incubator/hnc/internal/reconcilers/object.go:228-259 | On the heap: the action, the recorded sources and the queue are those of the model. |
| `ObjectReconciler.Reconciler.Reconcile` | incubator/hnc/internal/reconcilers/object.go:193-223 | One reconcile on the heap is one step of the model, and leaves the hierarchy alone. |
| `TreeSelector.GetTreeSelector` | incubator/hnc/internal/pkg/selectors/selectors.go:56-112 | Valid exactly if every segment is a DNS label, negated or not, and at most one is not negated; an empty first offender is an index out of range. |
| `TreeSelector.WrittenIsRead` | incubator/hnc/internal/pkg/selectors/selectors.go:56-95 | Names separated by commas, with or without an exclamation mark, are read as they are written if at most one is without; otherwise the selector is invalid. |
| `TreeSelector.TrimIs` | incubator/hnc/internal/pkg/selectors/selectors.go:70 | Trimming takes away the spaces at both ends, and all of them. |
| `TreeSelector.TrailingCommaCrashes` | incubator/hnc/internal/pkg/selectors/selectors.go:62-72 | For instance with a comma at the end. |
| `TreeSelector.AtMostOneName` | incubator/hnc/internal/pkg/selectors/selectors.go:89-93 | A valid tree selector asks for at most one name. |
| `TreeSelector.MatchesIff` | incubator/hnc/internal/pkg/selectors/selectors.go:18-33 | A tree selector matches exactly if the name it asks for is in the chain and no name it excludes is. |
| `TreeSelector.SkippedIffExcluded` | incubator/hnc/internal/reconcilers/object.go:681-689 | An object copied to a namespace is copied below it exactly if no excluded name is at or above the lower one. |
| `TreeSelector.CopiedIff` | incubator/hnc/internal/reconcilers/object.go:681-718 | Exactly when an object is copied to a namespace with given labels. |
| `TreeSelector.AskingIsSafe` | incubator/hnc/internal/reconcilers/object.go:373-389 | With tree selectors that only ask for a name, propagation is right at every quiet moment. |
| `TreeSelector.ExcludingGoesStale` | incubator/hnc/internal/reconcilers/object.go:373-389 | With one that excludes a name at or above a namespace it is not. |
| `RoundRobin.WeightedRoundRobin.Next` | incubator/virtualcluster/pkg/util/fairqueue/balancer/weightedroundrobin/scheduler.go:47-71 | With equal weights the position moves to the next group; the search for a weight ends. |
| `RoundRobin.WeightedRoundRobin.GoOn` | incubator/virtualcluster/pkg/util/fairqueue/balancer/weightedroundrobin/scheduler.go:56-70 | The loop ends at a node of sufficient weight, with equal weights at the next one. |
| `RoundRobin.WeightedRoundRobin.Add` | incubator/virtualcluster/pkg/util/fairqueue/balancer/weightedroundrobin/scheduler.go:73-95 | A new group goes to the end; the position is kept. |
| `RoundRobin.WeightedRoundRobin.Remove` | incubator/virtualcluster/pkg/util/fairqueue/balancer/weightedroundrobin/scheduler.go:132-151 | The group leaves, and the position stays on the same neighbour. |
| `FairQueueRuns.StepSafe` | incubator/virtualcluster/pkg/util/fairqueue/fair.go:89-233 | Every step, also the `Done` that loses an item, keeps: the counter is the sum of the FIFO sizes, no item is queued twice, queued items are dirty and not processed. |
| `FairQueueRuns.TakenSafe` | incubator/virtualcluster/pkg/util/fairqueue/fair.go:137-162 | `Get` hands out the first item of its group, which no one else is processing. |
| `FairQueueRuns.DoneSafeIff` | incubator/virtualcluster/pkg/util/fairqueue/fair.go:164-189 | `Done` is safe exactly if the item is not waiting. |
| `FairQueueRuns.SecondDoneDuplicates` | incubator/virtualcluster/pkg/util/mccontroller/mccontroller.go:438-462 | A second `Done` queues the item twice if it was added in between. |
| `FairQueueRuns.DoneLosesNothingIff` | incubator/virtualcluster/pkg/util/fairqueue/fair.go:173-188 | `Done` loses the item exactly if it is dirty and its group is gone. |
| `FairQueueRuns.CleanSparesIff` | incubator/virtualcluster/pkg/util/fairqueue/fair.go:220-233 | A collection keeps everything safe from loss exactly if it spares the groups of items in processing. |
| `FairQueueRuns.RunLosesNothing` | incubator/virtualcluster/pkg/util/fairqueue/fair.go:89-233 | Every legal run is safe; if collections spare those groups, every dirty item that is not processed is queued in its own group, and `Get` finds an item whenever the length is not zero. |
| `FairQueueRuns.DownAcceptsNothing` | incubator/virtualcluster/pkg/util/fairqueue/fair.go:89-94 | After a shutdown nothing is handed out that was not accepted before. |
| `FairQueueRuns.TakenInTurn` | incubator/virtualcluster/pkg/util/fairqueue/fair.go:148-161 | `Get` hands out the first item of the first group in turn that has one, and the groups up to it have had their turn. |
| `FairQueueRuns.AddKeepsTurns` | incubator/virtualcluster/pkg/util/fairqueue/fair.go:109-120 | A new group comes after those that have not had their turn in this round; otherwise adding changes no turn. |
| `FairQueueRuns.CleanKeepsTurns` | incubator/virtualcluster/pkg/util/fairqueue/fair.go:220-233 | A collection takes groups out of the turns and leaves the others in their order. |
| `FairQueueIdle.CollectedIff` | incubator/virtualcluster/pkg/util/fairqueue/fair.go:220-233 | In every run, a collection drops a group exactly if it has no item and was last made, filled or emptied from more than the expiry time before; the others stay as they are. |
| `FairQueueIdle.UsedIsKept` | incubator/virtualcluster/pkg/util/fairqueue/fair.go:220-233 | So, if time does not run backwards, a group used within the expiry time is never dropped. |
| `FairQueueRuns.LostForever` | incubator/virtualcluster/pkg/util/fairqueue/fair.go:173-182 | An item lost this way is never handed out again. |
| `FairQueueRuns.StaysRegisteredIff` | incubator/virtualcluster/pkg/util/fairqueue/fair.go:173-182 | The balancer knows every group, until `Done` for a dirty item whose group is gone. |
| `FairQueueRuns.NeverStuck` | incubator/virtualcluster/pkg/util/fairqueue/fair.go:144-154 | So `Get` finds an item whenever there is one in every run without such a step. |
| `FairQueueState.SearchEndsIff` | incubator/virtualcluster/pkg/util/fairqueue/fair.go:148-154 | Asking the balancer again and again comes to a group with an item exactly if a group that it names has one. |
| `FairQueueRuns.StuckSearch` | incubator/virtualcluster/pkg/util/fairqueue/fair.go:148-154 | Otherwise the search dereferences a missing group at once or comes to empty groups for ever. |
| `FairQueueRuns.LosingRun` | incubator/virtualcluster/pkg/util/fairqueue/fair.go:173-182 | A legal run from the start that loses an item and leaves another one queued that `Get` crashes on. |
| `FairQueueRuns.EndlessRun` | incubator/virtualcluster/pkg/util/fairqueue/fair.go:148-154 | And one after which `Get` never returns. |
| `FairQueueFairness.GetAdvances` | incubator/virtualcluster/pkg/util/fairqueue/fair.go:137-162 | Each `Get` hands out the item or brings it nearer. |
| `FairQueueFairness.HandedOutInTime` | incubator/virtualcluster/pkg/util/fairqueue/fair.go:137-162 | Over G groups the item at position k is handed out within (k+1)*G calls of `Get`. |
| `FairQueueFairness.NobodyOvertakes` | incubator/virtualcluster/pkg/util/fairqueue/fifo.go:54-70 | Items of a group leave in the order in which they came. |
| `FairQueue.FairQueue.Add` | incubator/virtualcluster/pkg/util/fairqueue/fair.go:89-123 | A new item is queued once in its group, registering the group; a dirty one is ignored, one in processing waits for `Done`. |
| `FairQueue.FairQueue.Get` | incubator/virtualcluster/pkg/util/fairqueue/fair.go:137-162 | The item of the next group that has one; if the balancer names no such group, a search that never ends or a crash, and nothing changes. |
| `FairQueue.FairQueue.Done` | incubator/virtualcluster/pkg/util/fairqueue/fair.go:164-189 | A dirty item is queued again, unless its group is gone. |
| `FairQueue.FairQueue.CheckAndCleanIdleQueue` | incubator/virtualcluster/pkg/util/fairqueue/fair.go:220-233 | Exactly the empty groups that have been idle for too long are dropped, in whatever order they are visited. |
| `DelayingQueueRuns.NoRequestIsLate` | incubator/virtualcluster/pkg/util/fairqueue/delaying.go:108-194 | A request is met by the first release pass at or after its time, or before. |
| `DelayingQueueRuns.NothingIsEarly` | incubator/virtualcluster/pkg/util/fairqueue/delaying.go:126-136 | What a pass releases was asked for at a time that has come, and has not been released since. |
| `DelayingQueueRuns.DueIsEarliestAsked` | incubator/virtualcluster/pkg/util/fairqueue/delaying.go:180-194 | A waiting item is due at the earliest time asked for since it last left. |
| `DelayingQueueRuns.PassLeavesTheFuture` | incubator/virtualcluster/pkg/util/fairqueue/delaying.go:126-136 | After a pass everything that waits is strictly in the future. |
| `DelayingQueue.RootIsSoonest` | incubator/virtualcluster/pkg/util/fairqueue/delaying.go:55-70 | In a heap in order the root is due first. |
| `DelayingQueue.WaitForPriorityQueue.Swap` | incubator/virtualcluster/pkg/util/fairqueue/delaying.go:71-75 | Swaps in place and keeps every index equal to the position. |
| `DelayingQueue.WaitForPriorityQueue.Fix` | incubator/virtualcluster/pkg/util/fairqueue/delaying.go:186-186 | Restores the heap order after one entry has moved earlier. |
| `DelayingQueue.WaitForPriorityQueue.Push` | incubator/virtualcluster/pkg/util/fairqueue/delaying.go:79-84 | Adds the entry; heap order and indices are kept. |
| `DelayingQueue.WaitForPriorityQueue.Pop` | incubator/virtualcluster/pkg/util/fairqueue/delaying.go:88-94 | Removes the root; heap order and indices are kept. |
| `DelayingQueue.WaitingLoop.AddAfter` | incubator/virtualcluster/pkg/util/fairqueue/delaying.go:26-43 | Without a delay the item is added at once; after a shutdown nothing happens. |
| `DelayingQueue.WaitingLoop.Insert` | incubator/virtualcluster/pkg/util/fairqueue/delaying.go:180-194 | A second request for a waiting item only ever makes it due sooner; the map by data stays in step with the heap. |
| `DelayingQueue.WaitingLoop.Receive` | incubator/virtualcluster/pkg/util/fairqueue/delaying.go:155-175 | A request that is not in the future is added at once. |
| `DelayingQueue.WaitingLoop.Release` | incubator/virtualcluster/pkg/util/fairqueue/delaying.go:126-136 | Exactly the due items go to the fair queue, each once, those due first in front. |
| `DelayingQueue.WaitingLoop.Turn` | incubator/virtualcluster/pkg/util/fairqueue/delaying.go:119-143 | The loop wakes up at the time of the item due next, which lies in the future. |
| `TenantSync.TransparentIsExempt` | incubator/virtualcluster/pkg/syncer/conversion/equality.go:199-241 | Every transparent key is one that the downward check leaves to the super cluster. |
| `TenantSync.OpaqueKeys` | incubator/virtualcluster/pkg/syncer/conversion/equality.go:294-308 | A key with a slash is opaque exactly if the part before it ends in one of the domains, a key without one exactly if it does so itself. |
| `TenantSync.ExemptIff` | incubator/virtualcluster/pkg/syncer/conversion/equality.go:233-270 | The super cluster owns the opaque keys and those that start with a prefix of the tenant or of the syncer. |
| `TenantSync.TransparentIff` | incubator/virtualcluster/pkg/syncer/conversion/equality.go:199-215 | Shown to the tenant are the keys that start with one of its transparent prefixes, or with that of the syncer. |
| `TenantSync.DownHolds` | incubator/virtualcluster/pkg/syncer/conversion/equality.go:233-292 | The downward result: the super cluster's own keys as it has them, all others as the tenant has them. |
| `TenantSync.UpHolds` | incubator/virtualcluster/pkg/syncer/conversion/equality.go:199-227 | The upward result: the keys shown to the tenant as the super cluster has them, all others as the tenant has them. |
| `TenantSync.SettledIff` | incubator/virtualcluster/pkg/syncer/conversion/equality.go:199-292 | Both checks report equal exactly if the maps agree on the keys that are not exempt and the tenant has the transparent ones. |
| `TenantSync.DownThenUpSettles` | incubator/virtualcluster/pkg/syncer/conversion/equality.go:199-292 | One downward and then one upward sync settle any two maps. |
| `TenantSync.DirectionsCommuteIff` | incubator/virtualcluster/pkg/syncer/conversion/equality.go:199-292 | Neither direction sees whether the other has run, exactly if every transparent key is exempt. |
| `TenantSync.AnyOrderSettles` | incubator/virtualcluster/pkg/syncer/conversion/equality.go:199-292 | In any order and number of syncs the result is the same, and settled once both directions have run. |
| `TenantSync.IsOpaquedKey` | incubator/virtualcluster/pkg/syncer/conversion/equality.go:294-308 | Whether the part of the key before its first slash ends in one of the opaque domains. |
| `TenantSync.CheckDWKVEquality` | incubator/virtualcluster/pkg/syncer/conversion/equality.go:233-292 | Reports the map with the tenant's values on the keys that are not exempt and the super cluster's on the others, if it is different. |
| `TenantSync.CheckUWKVEquality` | incubator/virtualcluster/pkg/syncer/conversion/equality.go:199-227 | Reports the tenant's map with the transparent keys of the super cluster, if it is different. |
| `TenantSync.CheckDWObjectMetaEquality` | incubator/virtualcluster/pkg/syncer/conversion/equality.go:129-162 | The same for the metadata with its names, labels and annotations. |
| `TenantSync.CheckUWObjectMetaEquality` | incubator/virtualcluster/pkg/syncer/conversion/equality.go:175-193 | The same upwards. |
| `TenantSync.MetaSettles` | incubator/virtualcluster/pkg/syncer/conversion/equality.go:129-193 | After one downward and one upward sync of the metadata neither check has anything to update. |
| `PodConditions.ConditionsSettleIff` | incubator/virtualcluster/pkg/syncer/conversion/equality.go:82-115 | One downward and one upward sync settle the conditions, for any iteration order of the maps, if and only if for every repeated gated type the last condition of the super cluster is the tenant's, or else like its first. |
| `PodConditions.ConditionsSettle` | incubator/virtualcluster/pkg/syncer/conversion/equality.go:82-115 | So with no gated type repeated in the super cluster. |
| `PodConditions.WhoSeesWhat` | incubator/virtualcluster/pkg/syncer/conversion/equality.go:310-360 | What a downward and an upward sync lead to, for any lists: which conditions are replaced by the tenant's, which are added, and which the tenant sees. |
| `PodConditions.RepeatedKindsDoNotSettle` | incubator/virtualcluster/pkg/syncer/conversion/equality.go:82-115 | With two conditions of a gated type, the second not the tenant's, they do not. |
| `PodConditions.CheckDWPodConditionEquality` | incubator/virtualcluster/pkg/syncer/conversion/equality.go:82-115 | The in-place loop and the appended rest give a downward result; it is reported if it differs. |
| `PodConditions.CheckUWPodStatusEquality` | incubator/virtualcluster/pkg/syncer/conversion/equality.go:313-360 | The loop that deletes from the list it walks gives an upward result; it is reported if it differs. |
| `PathHierarchy.UpdateIsLeast` | incubator/hnc/tools/ans2hns/main.go:120-138 | A successful update adds exactly the links of the chain. |
| `PathHierarchy.UpdateFailsIff` | incubator/hnc/tools/ans2hns/main.go:120-138 | It fails exactly if no forest has the old entries and describes the chain. |
| `PathHierarchy.ReadsIff` | incubator/hnc/tools/ans2hns/main.go:60-95 | All chains are read exactly if some forest describes them all; the result is the least such forest. |
| `PathHierarchy.OrderDoesNotMatter` | incubator/hnc/tools/ans2hns/main.go:60-95 | The order and the number of the files do not matter. |
| `PathHierarchy.AcceptedIff` | incubator/hnc/tools/ans2hns/main.go:60-116 | The files are accepted exactly if none lies directly in the namespaces directory and the chains do not conflict. |
| `PathHierarchy.UpdateKeepsBuilt` | incubator/hnc/tools/ans2hns/main.go:120-138 | The forest never has a cycle or an unknown parent, also after a conflict. |
| `PathHierarchy.ReadsBack` | incubator/hnc/tools/ans2hns/main.go:100-116 | Reading a generated path gives back the chain from which it was made. |
| `PathHierarchy.ReadPathIff` | incubator/hnc/tools/ans2hns/main.go:100-116 | Exactly which paths are read as a chain, and which; which are misplaced and which are ignored. |
| `PathHierarchy.SomePath` | incubator/hnc/tools/ans2hns/main.go:100-116 | Every path is one of segments without slashes. |
| `PathHierarchy.ReplayChangesNothing` | incubator/hnc/tools/ans2hns/main.go:120-138 | Reading a described chain again succeeds and changes nothing. |
| `PathHierarchy.ReadChainIff` | incubator/hnc/tools/ans2hns/main.go:100-138 | The directories read are the ancestors recorded for the last of them, exactly if no directory above it has an empty name. |
| `PathHierarchy.EmptyDirectoryIsRead` | incubator/hnc/tools/ans2hns/main.go:100-116 | A path with an empty directory name is read ... |
| `PathHierarchy.EmptyDirectoryLosesParent` | incubator/hnc/tools/ans2hns/main.go:120-138 | ... and the namespace below it becomes a root. |
| `PathHierarchy.Inference.UpdateForest` | incubator/hnc/tools/ans2hns/main.go:120-138 | The loop, with the entries it leaves behind when it fails. |
| `PathHierarchy.Inference.ProcessItems` | incubator/hnc/tools/ans2hns/main.go:60-95 | The files in order, up to the first failure. |
| `PathHierarchy.Inference.PathTo` | incubator/hnc/tools/ans2hns/main.go:204-211 | The loop ends and yields the path through exactly the chain of ancestors. |
| `PathHierarchy.Inference.AddConfigs` | incubator/hnc/tools/ans2hns/main.go:187-225 | One configuration, with that path, for each namespace with a parent and without a configuration, and no other. |
| `PathHierarchy.Inference.GeneratedIsFaithful` | incubator/hnc/tools/ans2hns/main.go:198-225 | A generated path reads back as the chain of ancestors and leaves the forest as it is. |

## Left out

- API servers, watches, retries, channels and goroutines: a locked section is one step, writes to the API
  server succeed, and a channel is the sequence of what was sent.
- ObjectReconciler.Reconciler.Reconcile: the write of an object is part of the step that decided it; in the program
  the forest lock is released in between, and a write can fail and be retried.
- PropagationMoves.UnshakenIsSettled: in runs with removals, a stale namespace that has neither lost anything nor been
  halted can be right in every interleaving, for instance if what came above it was removed again; which of these are
  is not stated. Without removals there are none.
- PropagationExact.MovingIsSettledIff: selectors that depend on labels are not part of these runs, and the update of the
  objects of a namespace is part of its reconcile.
- Clocks: each call takes the time as a parameter; calls made within one release pass see the same time.
- Fields of a namespace object other than its place in the hierarchy are one value that is replaced as a
  whole; a map of children keeps the names only, since the references stored in it are never followed.
- Labels of namespaces are depths by name, with the other labels apart; keys and numbers are not
  converted to strings, except in TreeSelector.
- Label selectors other than tree selectors are functions of the labels; how they are parsed is not modelled.
- Conditions carry no messages, and the list of conflicts of a parent change is reduced to whether it is empty.
- `hasConflict` in `incubator/hnc/internal/validators/object.go`, which looks at the labels of the source's own namespace.
- The types' modes other than propagate, finalizers of HNC itself and the two phases of a deletion: an object
  or a namespace is there or it is not.
- The anchor validator and reconciler, the halted-ancestor check of `checkNS`, `checkServer` and the authorisation calls.
- LabelRuns.QuietLabelsIff: no namespace is external in these runs; external labels that change while a namespace stays
  external do not enqueue its descendants.
- RoundRobin.WeightedRoundRobin.Add: weights of zero or less, which the scheduler accepts, are left out; the fair queue
  always uses one.
- RoundRobin.WeightedRoundRobin.Next: with unequal weights the share of each group is not stated.
- FairQueue.FairQueue.Get: the wait on the condition variable is left to the caller; the method is called when there
  is an item or the queue is shutting down.
- PathHierarchy.AcceptedIff: the checks on the object in a file, of its name and of its namespace, are left out.
- PathHierarchy.Inference.ProcessItems: likewise.
- Rate limiting and metrics of the fair queue, and crash handling.
- `heap` and `sort` of the Go library are modelled by their algorithm and by their result.
- `ans2hns`: reading and writing YAML, setting the namespace of an item and correcting an existing configuration.
- Pod specs, services, secrets and the other equality checks of the syncer, which compare field by field.
- Statistics of propagated objects, kubectl plugins, tenant controllers, the scheduler experiment, vn-agent, PKI.
