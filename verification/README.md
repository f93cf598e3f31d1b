# Verified models of the provider's algorithmic core

The Terraform provider for the Elastic Stack is mostly API plumbing, but its repository also holds
several pieces of real algorithmic code: a static analyser that looks for API fields the provider
never sends, a transformer of Kibana's OpenAPI document, a selector of acceptance tests, two
schedulers with persistent memory, a version-matrix computation, a backoff poller, and composite
identities that must survive every write. This project models that code in Dafny 4.11 and proves
what it is for.

`dafny verify dfyconfig.toml` checks everything.

## What is modelled

**API-gap analyser** (`scripts/kibana-api-gaps`).
`Oas` holds the document as YAML nodes, JSON pointers and `$ref` resolution, `RefChains` says when it
succeeds under its limit of 64 turns; `JsonPointer` the token escaping of section 3 of RFC 6901; `Coherence` says exactly when every
pointer met on a walk looks up to its node; `SchemaView` is the merging of `allOf` members, `ViewMeaning` what
it amounts to over the whole tree of members, and `ViewContents` what else a view holds, read off the nodes; `Walk` is the walker itself, a class whose mutually
recursive methods set and delete entries of `active` and append to `skipped`, each proved equal to a
function of the state it started from.
`WalkTheorems` gives that function an independent meaning: a *route* is a path of element, branch and
field hops through used fields that ends at an unused one, and a successful walk reports exactly the
ends of routes. From that follows the analyser's promise that over-counting usage never invents a gap;
`UsageMarks` carries it back to the generic types matched by name alone. `GuardTheorems` shows that the
cycle guard hides nothing: what a route reaches without the guard is reported. `WalkEntries` says what each
entry of a walk is, and `WalkOutcomes` when a walk fails and what it skips, again by routes.
`Fingerprint` is the structural projection with its cycle guard, which depends on structure alone;
`FingerprintPaths` says exactly what it tells apart, by following paths of child schemas in both documents. `Usage` is the least fixpoint of reflecting functions and the memo table of interface
resolution. `Discover` folds gaps into groups through two stages of maps and sorts, and `GroupFingerprints`
says what the fingerprint of a group depends on, so when a verdict expires. `Triage` is the protocol of
reports and verdicts over the persistent memory, `TriageRounds` what a round leaves there and how the next
queue follows from it, and `TriageProgress` shows that triage can always go on until nothing is pending.

**OpenAPI transformer** (`generated/kbapi/transform_schema.go`).
`Document` is the dotted-path algebra, `Iteration` the bottom-up visit of every map, `References` what
a `$ref` means. `Editing` proves, for any callback on maps, that editing every map in place in the order of
`Iterate` is one bottom-up rewrite of the tree; `Passes` holds the callbacks of the renaming and collapsing
passes and runs `Iterate` with them. `CreateRef`, `Rename`, `Prune` and `Collapse` are the passes;
`LiftReferences` is about the references after a lift. `Survivors` tells from the document alone which
components the prune keeps, and `PruneDangling` which references it leaves dangling.
`CollapseMeaning` defines when a schema accepts a value (section 4.7.24 of the OpenAPI Specification
3.0.3), independently of the collapse, and `CollapseDocument` carries that to whole documents, where a
`$ref` accepts what its target accepts.

**Acceptance-test selector** (`scripts/targeted-testacc`): `DepGraph` and `Selector`.
**Coverage rotation** (`scripts/schema-coverage-rotation`): `Rotation`, `RotationTimes` and
`RotationNames`.
**Version matrix** (`scripts/version-matrix`): `Versions`, `VersionTexts`, `Matrix`, `ReleaseChoice` and
`Artifact`.
**Backoff poller and state waiter** (`internal/asyncutils`): `Backoff`.
**Composite identity** (`internal/clients`, `internal/entitycore`): `CompositeIds`.

Conventions. Iteration over a Go map is a loop that takes any remaining key, so every order-independence
claim is about all orders. A library sort is any sorted permutation; determinism is claimed only where
the order tells the elements apart. A panic or an `error` is `None`, `false` or `Err`. Code that updates
an object becomes a class or a method with `modifies`. SHA-256 is an arbitrary function. Network, file,
registry, clock and cluster answers are parameters. Integers are unbounded except where width matters
(`Versions.ParseInt` and `Backoff`, 64 bits with clamping and wrap-around written out).

## Findings

Where a property does not hold of the code as written, the code is modelled as it is and the exact
condition is proved.

- A `$ref` of exactly `#` is looked up as the root's entry named `""`. Every ref met on a walk from a coherent
  ref is coherent if and only if no such `$ref` is met, or there is no such entry, or every child of that
  entry is also the root's child under the same key (`Coherence.PointerCoherence`;
  `Coherence.HashCanBreak` is a document where it fails).
- `renameComponentSchema` rewrites only references equal to the component's own reference; a reference
  *into* the component dangles afterwards (`Rename.RenameCanDangle`). In a document without dangling
  references, none dangles after the rename if and only if no scanned reference points into the
  component (`Rename.RenameIsIsomorphism`).
- The enum collapse removes the branches of the unions it collapses; a reference to such a branch dangles
  afterwards (`CollapseDocument.CollapseCanDangle`). Where collapsing nodes carry no type or enum and their
  branches nothing else, no other reference does (`CollapseDocument.CollapseDanglesIff`).
- The prune keeps components by the last segment of a reference, so a reference into a component does not
  keep it, and can dangle afterwards (`PruneDangling.PruneCanDangle`). A component survives if and only if a
  chain of last segments leads to it from an endpoint or another section, or out of a cycle of components
  (`Survivors.SurvivorsAre`); in a document without dangling references, none dangles after the prune if and
  only if no reference of an endpoint, another section or a surviving component leads to or into a component
  that does not survive (`PruneDangling.PruneDanglesIff`).
- A reference into a subtree that `CreateRef` lifts out dangles afterwards (`LiftReferences.LiftCanDangle`).
  The lift keeps every reference, and in a document without dangling references none dangles after it if
  and only if no reference leads strictly into the lifted subtree (`LiftReferences.LiftDanglesIff`).
- The memory of the rotation keeps whole seconds, so recorded times can stand still. Over every memory of
  named entities and every size of a round, the rotation is fair over a sequence of times if and only if
  each time but the last is later than the one before it (`RotationTimes.FairIffRising`).
- `record` refuses a whole round when a selected entity has no name, and the memory then stays as it is, so
  the next round selects the same. From the memory in which `""` and `a` were never analysed, with one entity
  a round, `a` is never selected (`RotationNames.NamelessBlocks`). A memory is fair over all rising times and
  all sizes of a round if and only if every entity has a name or there is at most one entity
  (`RotationNames.FairMemoryIff`).
- The SNAPSHOT label parser accepts any major version, the artifact reader only 8 and 9: a label such as
  `10.0.0-SNAPSHOT` is adopted, written and then refused (`Artifact.TenIsRejected`,
  `Artifact.LabelRefusedLater`). `Artifact.ResultReadsBack` is the exact condition on the tags, the pinned
  list, the probe and the label.
- The text hashed for a merged group separates places by newlines. A place with a newline in it can hide that
  a constituent has gone (`GroupFingerprints.NewlineHides`); for places without newlines a verdict holds if
  and only if no constituent changed, went or came (`GroupFingerprints.VerdictHoldsIff`).
- Doubling the delay wraps 64-bit durations; the documented policy holds for every number of retries
  if and only if `Max <= 0`, or `Initial == 0`, or both are positive and below 2^62
  (`Backoff.PolicyIffNoOverflow`).
- The identity law needs a slash-free cluster UUID and a non-empty first write identity, and holds along
  every sequence of updates exactly then (`CompositeIds.IdentityIff`). A resource that allows an empty
  identity on create falls outside it.

## Model

| member | source | states |
|---|---|---|
| JsonPointer.UnescapeEscape | scripts/kibana-api-gaps/oas.go:270-276 | unescaping inverts escaping on every token |
| JsonPointer.EscapedHasNoSlash | scripts/kibana-api-gaps/oas.go:270-272 | an escaped token contains no separator |
| Oas.SearchMapping | scripts/kibana-api-gaps/oas.go:246-256 | the search loop finds the first entry with the key, or nothing |
| Oas.FindEntry | scripts/kibana-api-gaps/oas.go:246-256 | found exactly when an entry has the key, and then in the first such entry |
| Oas.LookupLoop | scripts/kibana-api-gaps/oas.go:225-244 | the token loop follows the pointer step by step, with the same errors |
| Oas.ChaseLoop | scripts/kibana-api-gaps/oas.go:206-223 | the bounded loop follows `$ref` after `$ref` and fails beyond its bound or at the first turn that fails |
| Oas.ResolvesIn | scripts/kibana-api-gaps/oas.go:206-223 | what a resolution finds lies in every set of refs that single turns do not leave |
| Oas.ReachIsClosed | scripts/kibana-api-gaps/oas.go:206-244 | a finite set of refs holds the start and is closed under descending and resolving |
| RefChains.ResolvesIff | scripts/kibana-api-gaps/oas.go:206-223 | a ref resolves to a schema if and only if that has no `$ref` and ends a chain of local references of at most 64 schemas |
| RefChains.TooDeepIff | scripts/kibana-api-gaps/oas.go:206-223 | the chain is too deep exactly when 64 references follow one another |
| Coherence.TargetCoherence | scripts/kibana-api-gaps/oas.go:206-244 | with distinct mapping keys, everything beneath a `$ref` target other than a bare `#` looks up to its node |
| Coherence.HashCoherence | scripts/kibana-api-gaps/oas.go:206-244 | everything beneath the target of `#` does exactly when its children are the root's own |
| Coherence.MetIsClosed | scripts/kibana-api-gaps/oas.go:182-277 | the refs met from a ref (by descending and resolving, step by step) hold it and are closed under both |
| Coherence.PointerCoherence | scripts/kibana-api-gaps/oas.go:182-277 | every ref met on a walk from a coherent ref is coherent, if and only if no bare `#` is met, or there is no root entry named "", or its children are the root's own |
| Coherence.HashCanBreak | scripts/kibana-api-gaps/oas.go:212-221 | a document in which a ref met from the body does not look up to its node |
| SchemaView.MergeLoop | scripts/kibana-api-gaps/schemaview.go:123-138 | the nested loops overwrite in place or append, as the merge specifies |
| SchemaView.MergeLastWins | scripts/kibana-api-gaps/schemaview.go:123-138 | under every name the merged list gives the last added definition, else the existing one |
| SchemaView.OwnPropertiesLoop | scripts/kibana-api-gaps/schemaview.go:74-91 | the loop over `properties` collects every property with its pointer and required flag |
| SchemaView.AddProperties | scripts/kibana-api-gaps/schemaview.go:74-105 | own properties appended, then each mergeable `allOf` member merged, stopping at an unsupported one |
| SchemaView.BuildView | scripts/kibana-api-gaps/schemaview.go:48-72 | the view that `ViewContents` and `ViewMeaning` characterise, on every document without a cycle of `allOf` edges alone; terminates |
| ViewMeaning.LastDefinitionWins | scripts/kibana-api-gaps/schemaview.go:48-138 | in a supported view every name has the last of its definitions over the whole tree of `allOf` members, and no name occurs twice |
| ViewContents.ViewHolds | scripts/kibana-api-gaps/schemaview.go:48-72 | deprecated, read-only and state of the ref or else its target; without `not` the branches are the elements of `oneOf`, else of `anyOf`, and the items the child under `items`, each with its pointer |
| ViewContents.MembersAre | scripts/kibana-api-gaps/schemaview.go:92-99 | without `not` the members are the elements of `allOf`, in order, each with its pointer |
| ViewContents.SupportedIff | scripts/kibana-api-gaps/schemaview.go:60-121 | a view is supported if and only if there is no `not`, no `anyOf` beside a non-empty `oneOf`, and every `allOf` member resolves, is supported and carries neither branches nor items |
| ViewContents.UnsupportedShape | scripts/kibana-api-gaps/schemaview.go:60-121 | an unsupported view names `not`, both combinators, or what is wrong with the first member that stops the merge |
| ViewContents.ViewOkIff | scripts/kibana-api-gaps/schemaview.go:48-105 | there is a view if and only if the ref resolves and the first unsupported member, if any, has a view |
| ViewContents.OwnPropertiesAre | scripts/kibana-api-gaps/schemaview.go:74-91 | own properties are the entries of `properties` in order, each with its pointer, required exactly when `required` lists its name |
| ViewContents.FirstDeclaredFirst | scripts/kibana-api-gaps/schemaview.go:123-138 | the properties of a supported view come in the order in which their names are first declared over the tree of members |
| ViewMeaning.SameTarget | scripts/kibana-api-gaps/schemaview.go:48-138 | views of two refs that resolve to one target agree in everything the walk reads |
| SchemaView.ViewStaysIn | scripts/kibana-api-gaps/schemaview.go:48-121 | a view names only refs of any closed set that holds the viewed ref |
| Walk.ContextExists | scripts/kibana-api-gaps/walk.go:54-65 | every document without a cycle of `allOf` edges alone has a walk, for any Go types and usage |
| Walk.Walker.Gaps | scripts/kibana-api-gaps/walk.go:165-171 | terminates on recursive schemas, restores `active`, appends exactly the specified skips and returns the specified members |
| Walk.Walker.ViewGaps | scripts/kibana-api-gaps/walk.go:174-209 | the guarded step: deprecated, read-only, unsupported, opaque and already active shapes end it; `active` is restored |
| Walk.Walker.ElementGaps | scripts/kibana-api-gaps/walk.go:211-216 | elements are walked under the path with brackets; `active` is restored |
| Walk.Walker.ObjectGaps | scripts/kibana-api-gaps/walk.go:218-237 | unions by branches, structs by properties, members joined in order; `active` is restored |
| Walk.Walker.UnionBranches | scripts/kibana-api-gaps/walk.go:112-129 | no branches is a skip, a count mismatch an error, otherwise branch i is read as variant i; `active` is restored |
| Walk.Walker.StructGaps | scripts/kibana-api-gaps/walk.go:241-278 | the property loop, with the outcome that `WalkEntries.StructEntries` and `WalkOutcomes` characterise; `active` is restored |
| Walk.Walker.BodyGaps | scripts/kibana-api-gaps/walk.go:87-108 | union bodies by branches, struct bodies by top-level field, with the outcome that `WalkEntries.BodyEntries` and `WalkOutcomes` characterise; `active` is restored |
| Walk.Walker.QueryGaps | scripts/kibana-api-gaps/walk.go:132-162 | one entry per parameter that is not deprecated, gaps beneath used ones; `active` is restored |
| WalkTheorems.GapsSound | scripts/kibana-api-gaps/walk.go:165-278 | every reported member is the end of a route through used fields |
| WalkTheorems.GapsComplete | scripts/kibana-api-gaps/walk.go:165-278 | a walk that succeeds reports the end of every route |
| WalkTheorems.GapsExact | scripts/kibana-api-gaps/walk.go:165-278 | the members of a successful walk are exactly the ends of routes |
| WalkEntries.FieldReportedIff | scripts/kibana-api-gaps/walk.go:253-272 | an unmarked field is reported itself under its dotted path with its pointer and state; beneath a marked one exactly what its own walk reports |
| WalkEntries.OpaqueEnds | scripts/kibana-api-gaps/walk.go:174-190 | nothing is reported beneath a type that is marked opaque, itself or where it was declared from |
| WalkEntries.StructEntries | scripts/kibana-api-gaps/walk.go:241-278 | exactly one entry per visible property, in order, with the name, ref and required flag of the property and exactly the members that routes through it reach |
| WalkEntries.BodyEntries | scripts/kibana-api-gaps/walk.go:87-129 | a body yields exactly one entry per visible property of its struct bodies, branch by branch and in order |
| WalkEntries.BodyEntryIs | scripts/kibana-api-gaps/walk.go:87-129 | the entry at a place has the name, ref and required flag of the property there and exactly the ends of the routes through it |
| WalkEntries.QueryEntries | scripts/kibana-api-gaps/walk.go:132-162 | exactly one entry per parameter that is not deprecated, in order, with its name, ref and required flag, marked as a query parameter, and itself or what lies beneath its schema as members |
| WalkOutcomes.FailsIff | scripts/kibana-api-gaps/walk.go:165-278 | a walk fails if and only if a route of used fields leads to a schema without a view, to properties and Go fields that do not correspond, or to branches and variants of different number |
| WalkOutcomes.SkipsIff | scripts/kibana-api-gaps/walk.go:165-278 | a successful walk skips exactly the shapes that routes of used fields lead to and that cannot be followed, with pointer and reason |
| WalkOutcomes.BodyFailsIff | scripts/kibana-api-gaps/walk.go:87-129 | a body fails if and only if branches and then a route lead to something that cannot be matched |
| WalkOutcomes.BodySkipsIff | scripts/kibana-api-gaps/walk.go:87-129 | a successful body skips exactly the shapes that branches and then routes lead to |
| WalkOutcomes.QueryOutcome | scripts/kibana-api-gaps/walk.go:132-162 | query parameters fail exactly when one has no Go field or leads to a mismatch, and otherwise skip exactly what the used ones lead to |
| WalkTheorems.OvercountingNeverInvents | scripts/kibana-api-gaps/walk.go:165-278 | the claim made at reach.go:263-264: with more usage marks, every member lies at or beneath a member reported with fewer |
| GuardTheorems.GuardHidesNothing | scripts/kibana-api-gaps/walk.go:174-209 | where every ref met is coherent and type names hold no separator, every route of used fields taken without the guard has a guarded route to the same pointer and state |
| GuardTheorems.EveryGapIsReported | scripts/kibana-api-gaps/walk.go:165-278 | so a successful walk with nothing active reports the end of every unguarded route |
| GuardTheorems.ReportedLeads | scripts/kibana-api-gaps/walk.go:165-278 | and every member it reports is the end of an unguarded route |
| WalkTheorems.BodyExact | scripts/kibana-api-gaps/walk.go:87-129 | the members of a successfully walked body are exactly the ends of its routes |
| WalkTheorems.MoreUsageEnds | scripts/kibana-api-gaps/walk.go:87-129 | a body whose unions end still does with more usage marks, because an opaque type ends the walk |
| WalkTheorems.BodyOvercounting | scripts/kibana-api-gaps/walk.go:87-129 | over-counting usage never invents a gap in a request body |
| WalkTheorems.ParamOvercounting | scripts/kibana-api-gaps/walk.go:132-162 | nor beneath one query parameter |
| WalkTheorems.QueryOvercounting | scripts/kibana-api-gaps/walk.go:132-162 | nor among the query parameters of an operation |
| Fingerprint.Projector.Run | scripts/kibana-api-gaps/fingerprint.go:51-79 | terminates on every cyclic `$ref` graph, restores `active` (on errors too) and returns the specified projection |
| Fingerprint.Projector.RunKeys | scripts/kibana-api-gaps/fingerprint.go:81-130 | the child keywords fill the projection one after the other; `active` is restored |
| Fingerprint.Projector.RunChildren | scripts/kibana-api-gaps/fingerprint.go:81-130 | the children of one keyword are projected in order, the first error ends it; `active` is restored |
| Fingerprint.ChildIn | scripts/kibana-api-gaps/fingerprint.go:81-130 | every child ref the projection derives lies in any closed set that holds the schema, so pointer coherence covers it |
| Fingerprint.SameStructureSameProjection | scripts/kibana-api-gaps/fingerprint.go:38-151 | documents that agree on structural keys at corresponding refs, up to the order of properties, enum and required, have equal projections, and the projection exists |
| Fingerprint.SameStructureSameFingerprint | scripts/kibana-api-gaps/fingerprint.go:38-49 | and equal fingerprints, whatever the hash |
| FingerprintPaths.WrapIff | scripts/kibana-api-gaps/fingerprint.go:81-130 | a keyword contributes the same to two projections if and only if it means the same in both and each name or index finds equal projections |
| FingerprintPaths.SameLevelIff | scripts/kibana-api-gaps/fingerprint.go:30-130 | what counts of one schema is `type`, `format`, `deprecated`, `enum` and `required` up to order, and which of the seven child keywords it has |
| FingerprintPaths.DifferingPath | scripts/kibana-api-gaps/fingerprint.go:51-130 | projections that differ do so at some path of child schemas |
| FingerprintPaths.SameProjectionIff | scripts/kibana-api-gaps/fingerprint.go:51-130 | projections are equal if and only if every path of child schemas leads to corresponding spots: the same own keys up to order and the same child keywords, a cycle cut at the same pointer, or nowhere in both |
| FingerprintPaths.SameFingerprintIff | scripts/kibana-api-gaps/fingerprint.go:38-49 | and so are fingerprints, by a hash that tells the two projections apart |
| Usage.ModuleIndex.Implementations | scripts/kibana-api-gaps/reach.go:245-274 | the memoised answer is always the uncached one, and the cache stays right |
| Usage.ImplementationsAre | scripts/kibana-api-gaps/reach.go:245-274 | the implementations are those of every named type that implements the interface by value or else by pointer, and every method of that name of a generic type |
| Usage.PointerDecides | scripts/kibana-api-gaps/reach.go:250-262 | with the method sets Go guarantees, a named type contributes exactly when its pointer implements the interface |
| Usage.CallsReflectingIff | scripts/kibana-api-gaps/usage.go:266-277 | a call reaches a reflecting function exactly when it may end up in a member of the set |
| Usage.Pass | scripts/kibana-api-gaps/usage.go:243-259 | a pass only grows the set, stays within every closed set, and leaves a closed set when it finds nothing |
| Usage.ReflectingFuncs | scripts/kibana-api-gaps/usage.go:227-262 | terminates with the least set closed under handing a non-concrete argument to reflect or to a member |
| Usage.LeastClosedUnique | scripts/kibana-api-gaps/usage.go:227-262 | that set does not depend on the order of declarations |
| Usage.ReflectingIffChained | scripts/kibana-api-gaps/usage.go:227-275 | a function is in it exactly when a chain of such calls leads from it to reflect |
| Usage.MoreGenericsMoreReflecting | scripts/kibana-api-gaps/reach.go:263-274 | matching more generic types can only add reflecting functions |
| UsageMarks.MoreGenericsMoreMarks | scripts/kibana-api-gaps/usage.go:317-331 | and so only adds opaque marks, while field usage stays |
| UsageMarks.GenericsNeverInvent | scripts/kibana-api-gaps/reach.go:263-274 | matching generic types by name alone never invents a gap: every member lies at or beneath one reported under the exact matching |
| Discover.AddMembers | scripts/kibana-api-gaps/discover.go:179-187 | appends exactly the unseen members, once each, and keeps the list free of duplicates |
| Discover.SortMembers | scripts/kibana-api-gaps/discover.go:190-194 | the one sorted list of the elements |
| Discover.GroupTable.AddGroup | scripts/kibana-api-gaps/discover.go:196-212 | the table stays the image of the set of gaps folded in so far |
| Discover.Finish | scripts/kibana-api-gaps/discover.go:214-224 | the group of a key, from the set of folds alone, as `GroupFingerprints.FinishedIs` reads it |
| Discover.FinishAll | scripts/kibana-api-gaps/discover.go:101-107 | every key is finished once, in any map order; fails exactly when a structure cannot be hashed |
| Discover.MergeSiblings | scripts/kibana-api-gaps/discover.go:250-267 | siblings merge into the group that the set of siblings determines |
| Discover.MergeGroups | scripts/kibana-api-gaps/discover.go:232-248 | the final list: each merged group once, ordered by key, for any map order |
| Discover.FoldAll | scripts/kibana-api-gaps/discover.go:169-267 | folding, finishing and merging give the final groups of the set of gaps |
| Discover.FinalKeysDistinct | scripts/kibana-api-gaps/discover.go:232-267 | merged groups still have one group per key |
| Discover.FinalUnique | scripts/kibana-api-gaps/discover.go:232-248 | the final list is determined by the groups merged |
| Discover.FoldOrderIrrelevant | scripts/kibana-api-gaps/discover.go:169-267 | any order of operations and gaps and any map order give identical groups, keys, members and fingerprints |
| Discover.MembersConserved | scripts/kibana-api-gaps/discover.go:169-267 | per resource, field and kind, the final groups hold exactly the members folded in |
| GroupFingerprints.FinishedIs | scripts/kibana-api-gaps/discover.go:196-224 | the group of a key has the resource, field, place and kind of its folds, all their members, and the hash of their structure and of whether one of them is required |
| GroupFingerprints.KeyFingerprintIff | scripts/kibana-api-gaps/discover.go:214-224 | two runs give a key equal fingerprints if and only if the structure hashes and the required flags agree |
| GroupFingerprints.MergedFingerprintIff | scripts/kibana-api-gaps/discover.go:250-267 | merged groups have equal fingerprints if and only if their siblings have the same places with the same fingerprints |
| GroupFingerprints.MergedKey | scripts/kibana-api-gaps/discover.go:226-231 | a merged group is keyed by the least of its places |
| GroupFingerprints.FinalGroupIff | scripts/kibana-api-gaps/discover.go:226-267 | the final group of a field has the same key and fingerprint in two runs if and only if the field has the same constituents: places, structures and required flags |
| GroupFingerprints.VerdictHoldsIff | scripts/kibana-api-gaps/discover.go:229-231 | under the same key a recorded verdict covers the group of a later run if and only if no constituent changed, went or came; otherwise the group is pending again |
| GroupFingerprints.NewlineHides | scripts/kibana-api-gaps/discover.go:258-265 | two sets of siblings that differ, one with a newline in a place, with equal key and fingerprint |
| GroupFingerprints.FinalOrder | scripts/kibana-api-gaps/discover.go:190-248 | the final list is ordered by key without repeats, and every group in it has members, in order and each once |
| Triage.OrderIsTotal | scripts/kibana-api-gaps/report.go:80-118 | the comparator is a consistent total preorder |
| Triage.OldestFirst | scripts/kibana-api-gaps/report.go:103-118 | resources never triaged come first, then those untouched longest |
| Triage.TriageQueue | scripts/kibana-api-gaps/report.go:80-101 | the first groups, in triage order, of those memory does not cover |
| Triage.QueueUnique | scripts/kibana-api-gaps/report.go:80-101 | the queue is determined by groups and memory |
| Triage.QueueContents | scripts/kibana-api-gaps/report.go:80-101 | a queue holds pending groups, each key once |
| Triage.EmptyQueue | scripts/kibana-api-gaps/report.go:80-101 | it is empty exactly when nothing is pending |
| Triage.BuildReport | scripts/kibana-api-gaps/report.go:58-78 | no slots, no queue; the agent runs exactly when there is a queue |
| Triage.Pigeonhole | scripts/kibana-api-gaps/record.go:50-60 | distinct queued keys never outnumber the queue, so the order check never indexes past it |
| Triage.CheckOne | scripts/kibana-api-gaps/record.go:50-71 | one verdict passes exactly when it may follow those before it |
| Triage.CheckVerdicts | scripts/kibana-api-gaps/record.go:48-76 | accepts exactly the prefixes of the queue with valid verdicts that stop at the slot-filling `file` or cover the queue |
| Triage.ApplyVerdicts | scripts/kibana-api-gaps/record.go:42-89 | accepted verdicts are all recorded, as `TriageRounds` spells out; on rejection memory is untouched |
| Triage.RecordAll | scripts/kibana-api-gaps/record.go:77-87 | the recording loop leaves the memory of `TriageRounds.RecordsAfter` and `TriageRounds.StampsAfter` |
| Triage.AfterRecords | scripts/kibana-api-gaps/record.go:77-87 | every triaged key has a record with the queued fingerprint and nothing else changed |
| TriageRounds.RecordsAfter | scripts/kibana-api-gaps/record.go:77-87 | the record of a triaged key holds the queued fingerprint, the verdict, its reason, the date, and the key as issue exactly for `file` |
| TriageRounds.OthersKept | scripts/kibana-api-gaps/record.go:77-87 | groups without a verdict keep their records |
| TriageRounds.StampsAfter | scripts/kibana-api-gaps/record.go:77-87 | a resource has the stamp of the round if and only if one of its groups got a verdict; the others are unchanged |
| TriageRounds.AcceptsIff | scripts/kibana-api-gaps/record.go:42-76 | accepted are exactly the lists that follow the queue with `file` or `suppress` and a reason, none after the slots are filled, ending there or with the queue |
| TriageRounds.NormaliseIs | scripts/kibana-api-gaps/record.go:92-98 | verdicts count without surrounding blanks, so no accepted reason is blank |
| TriageRounds.QueueIsFirst | scripts/kibana-api-gaps/report.go:54-101 | a queue holds the first fifteen pending groups: resources never triaged, then the oldest, then by name; within a resource the largest, then by key |
| TriageRounds.TurnsTaken | scripts/kibana-api-gaps/record.go:77-87 | if the stamp of a round is read as later than the earlier ones, the next queue holds a group of a resource that got a verdict only after all pending groups of those that did not |
| Triage.RoundShrinks | scripts/kibana-api-gaps/record.go:42-89 | a round takes exactly the groups with verdicts off the pending set, at least one while a queue is left |
| Triage.RunsEnd | scripts/kibana-api-gaps/record.go:42-89 | over any run, verdicts given plus groups pending is constant, so a run has at most as many rounds as groups were pending |
| Triage.FilingBounded | scripts/kibana-api-gaps/record.go:42-89 | no round of a run files more than the slots |
| TriageProgress.AcceptedIff | scripts/kibana-api-gaps/record.go:42-89 | some list of verdicts is accepted if and only if the keys that must get one (as many as there are slots, or all) have no surrounding blanks |
| TriageProgress.NextRound | scripts/kibana-api-gaps/render.go:52-59 | with keys that have no surrounding blanks there is an acceptable next round while anything is pending |
| TriageProgress.RunToTheEnd | scripts/kibana-api-gaps/record.go:42-89 | from every memory there is a run after which nothing is pending |
| Document.GetAtPath | generated/kbapi/transform_schema.go:203-222 | a joined dot-free path that leads somewhere is found there by `Get` |
| Document.SetAtPath | generated/kbapi/transform_schema.go:282-304 | `Set` on a joined path writes where the path leads |
| Document.ReadBack | generated/kbapi/transform_schema.go:282-304 | what was set along an in-range path with no scalar in the middle is read back |
| Document.OthersUnchanged | generated/kbapi/transform_schema.go:519-537 | every diverging path is unchanged by a write |
| Document.GetAfterSet | generated/kbapi/transform_schema.go:203-304 | both facts in terms of the code's own `Get` and `Set` |
| Document.WriteBack | generated/kbapi/transform_schema.go:282-304 | writing back what is there changes nothing |
| Document.LastWriteWins | generated/kbapi/transform_schema.go:282-304 | the second of two writes at one path wins |
| Iteration.Keys | generated/kbapi/transform_schema.go:192-196 | the sorted keys, however the map is iterated |
| Iteration.Iterate | generated/kbapi/transform_schema.go:431-467 | the visits made, in order, with the keys the code builds |
| Iteration.PathsExact | generated/kbapi/transform_schema.go:431-467 | a path is visited exactly when it leads to a map |
| Iteration.PathsDistinct | generated/kbapi/transform_schema.go:431-467 | each map is visited once |
| Iteration.ChildrenFirst | generated/kbapi/transform_schema.go:431-467 | every map is visited after the maps beneath it |
| Iteration.VisitsAreReported | generated/kbapi/transform_schema.go:431-467 | the reported keys are the joined paths |
| Iteration.ReportedKeysResolve | generated/kbapi/transform_schema.go:431-467 | with non-empty dot-free keys, `Get` resolves every reported key but the root's to the reported map |
| Editing.VisitingOrder | generated/kbapi/transform_schema.go:431-467 | for any callback, editing every map in place in visiting order is the bottom-up rewrite, with the same panics |
| Passes.IterateEditing | generated/kbapi/transform_schema.go:431-467 | `Iterate` with the callback of a pass is the bottom-up rewrite by that callback |
| References.SchemaRefPath | generated/kbapi/transform_schema.go:371-429 | the `$ref` of a schema component leads to that component |
| References.RefsIff | generated/kbapi/transform_schema.go:1784-1791 | a reference of a tree is a string under some `$ref` of it |
| References.ScannedIff | generated/kbapi/transform_schema.go:1784-1791 | scanned are the references of the components and of the get, post, put, patch and delete endpoints |
| CreateRef.Schema.CreateRef | generated/kbapi/transform_schema.go:371-429 | panics exactly on a missing target or a clash with a different schema, otherwise the lifted document |
| CreateRef.CreateRefMeaning | generated/kbapi/transform_schema.go:340-429 | inlining the new `$ref` gives the original document plus that one component, and nothing else moved |
| CreateRef.CreateRefShares | generated/kbapi/transform_schema.go:371-429 | a call on an equal subtree elsewhere is accepted and shares the component |
| CreateRef.LiftKeepsPaths | generated/kbapi/transform_schema.go:371-429 | a path that resolved still does, if and only if it does not lead strictly into the lifted subtree (or is the new `$ref` itself) |
| LiftReferences.LiftedRefs | generated/kbapi/transform_schema.go:371-429 | the references afterwards are those before and the one to the new component |
| LiftReferences.LiftDanglesIff | generated/kbapi/transform_schema.go:371-429 | without dangling references before, there are none after if and only if no reference leads strictly into the lifted subtree |
| LiftReferences.LiftCanDangle | generated/kbapi/transform_schema.go:371-429 | a document in which a reference resolves before the lift and dangles after |
| Rename.RenameComponentSchema | generated/kbapi/transform_schema.go:1300-1328 | panics exactly on a missing old or an existing new name; otherwise the renamed document, for any order of paths |
| Rename.RewriteVisits | generated/kbapi/transform_schema.go:1313-1327 | the rewriting callback at every map, in visiting order, rewrites the whole tree and never panics |
| Rename.RewrittenAt | generated/kbapi/transform_schema.go:1313-1318 | the rewrite keeps every path, and what lies there is the rewritten node |
| Rename.RefsRenamed | generated/kbapi/transform_schema.go:1300-1328 | the scanned references afterwards are the images of those before |
| Rename.RefFollowsNode | generated/kbapi/transform_schema.go:1300-1328 | a reference not into the component resolves afterwards to the corresponding node |
| Rename.IntoComponentDangles | generated/kbapi/transform_schema.go:1313-1318 | a reference into the component is left dangling |
| Rename.RenameIsIsomorphism | generated/kbapi/transform_schema.go:1300-1328 | without dangling references before, there are none after if and only if no reference points into the component; the old reference is gone |
| Rename.RenameRoundTrip | generated/kbapi/transform_schema.go:1300-1328 | renaming back restores the document |
| Rename.RenameCanDangle | generated/kbapi/transform_schema.go:1313-1318 | a concrete document in which a reference resolves before and dangles after |
| Prune.CollectRefs | generated/kbapi/transform_schema.go:1772-1779 | visiting every map of a tree collects exactly the last segments of its references |
| Prune.VisitsMeetRefs | generated/kbapi/transform_schema.go:1784-1791 | the visits of a tree meet exactly its references |
| Prune.DeleteUnnamed | generated/kbapi/transform_schema.go:1793-1805 | deleting while ranging leaves exactly the named entries, in any order, and says whether anything went |
| Prune.PruneLoop | generated/kbapi/transform_schema.go:1784-1809 | terminates; what is left is the largest supported part and no reference left names an entry that went |
| Prune.RemoveUnusedComponents | generated/kbapi/transform_schema.go:1770-1810 | the same of the whole pass, which panics exactly when a section is missing |
| Prune.AliveMonotone | generated/kbapi/transform_schema.go:1784-1791 | keeping more entries keeps more names alive |
| Prune.LargestUnique | generated/kbapi/transform_schema.go:1770-1810 | the survivors are determined, whatever the map iteration order |
| Survivors.RestrictedRefs | generated/kbapi/transform_schema.go:1784-1791 | the references scanned after keeping some entries are those of the endpoints, of the other sections and of the entries kept |
| Survivors.ChainExists | generated/kbapi/transform_schema.go:1770-1810 | every supported entry ends a chain of last segments that starts at an endpoint, another section or a cycle of entries |
| Survivors.SurvivorsAre | generated/kbapi/transform_schema.go:1770-1810 | the prune keeps exactly the entries that such a chain leads to |
| PruneDangling.PruneDanglesIff | generated/kbapi/transform_schema.go:1770-1810 | without dangling references before, the pruned document has none if and only if no reference of an endpoint, another section or a surviving entry leads to or into an entry that does not survive |
| PruneDangling.OnlyDeepRefsDangle | generated/kbapi/transform_schema.go:1772-1779 | such a reference leads strictly into the entry: it does not end in its name |
| PruneDangling.PruneCanDangle | generated/kbapi/transform_schema.go:1770-1810 | a document in which one resolves before and dangles after |
| Passes.GatherLoop | generated/kbapi/transform_schema.go:1452-1466 | the branch loop gathers all values, stops at the first branch that is no string enum, or panics |
| Collapse.GatherExact | generated/kbapi/transform_schema.go:1452-1466 | it gathers exactly when every branch is a non-empty string enum |
| Collapse.GatherInOrder | generated/kbapi/transform_schema.go:1452-1466 | the values are those of the branches, branch after branch |
| Collapse.GatherPanics | generated/kbapi/transform_schema.go:1452-1466 | gathering panics exactly on a string-typed branch whose enum is no list, after string enums alone |
| Collapse.NodeCollapse | generated/kbapi/transform_schema.go:1446-1471 | a collapsible union becomes a string enum and keeps its other keys, every other map stays, and the panics are exactly those of `anyOf` and of gathering |
| Collapse.CollapseVisits | generated/kbapi/transform_schema.go:1446-1471 | the collapsing callback at every map, in visiting order, is the collapse of the tree, with the same panics |
| Collapse.CollapseStringEnums | generated/kbapi/transform_schema.go:1446-1471 | the pass collapses the components and leaves the paths alone |
| Collapse.PassNormalises | generated/kbapi/transform_schema.go:1446-1471 | one bottom-up pass leaves no non-empty anyOf made only of non-empty string enums |
| Collapse.PassIdempotent | generated/kbapi/transform_schema.go:1446-1471 | a second pass changes nothing and does not panic |
| CollapseMeaning.CollapseKeepsMeaning | generated/kbapi/transform_schema.go:1446-1471 | the collapsed schema accepts exactly the values the original accepted, under any two readings of the remaining keywords that agree on its references, where collapsing nodes carry no type or enum and their branches nothing else |
| CollapseDocument.CollapseKeepsDocumentMeaning | generated/kbapi/transform_schema.go:1446-1471 | with every `$ref` resolved in its document, before or after, and any number of hops: a collapsed schema and an untouched schema accept exactly what they accepted |
| CollapseDocument.CollapsedRefs | generated/kbapi/transform_schema.go:1446-1471 | the collapse neither loses nor invents a reference |
| CollapseDocument.CollapsedAt | generated/kbapi/transform_schema.go:1446-1471 | outside what a collapsing node loses or gets anew, the collapsed node lies where the node lay |
| CollapseDocument.CollapseDanglesIff | generated/kbapi/transform_schema.go:1446-1471 | without dangling references before, there are none after if and only if no scanned reference leads into a collapsing union |
| CollapseDocument.CollapseCanDangle | generated/kbapi/transform_schema.go:1446-1471 | a document in which a reference to a branch resolves before and dangles after |
| DepGraph.UniqStrings | scripts/targeted-testacc/depgraph.go:139-152 | the same elements, sorted, each once |
| DepGraph.StringsSorted | scripts/targeted-testacc/depgraph.go:133-137 | the elements of any list, sorted, each once |
| DepGraph.BuildReverseDepGraph | scripts/targeted-testacc/depgraph.go:86-98 | every importer list is complete, sorted and free of duplicates, for any map order |
| DepGraph.WalkReverseDeps | scripts/targeted-testacc/depgraph.go:104-131 | terminates with exactly the packages that reach a start package through a chain of imports |
| Selector.SelectPackages | scripts/targeted-testacc/selector.go:32-61 | the union of the phases, or everything when forced or when the union is more than the given share; sorted, each once |
| Selector.ThresholdExact | scripts/targeted-testacc/selector.go:32-61 | rounding the threshold down does not matter: a count is above it if and only if it is above the share |
| Selector.BuildShardPlan | scripts/targeted-testacc/selector.go:90-121 | a valid, balanced plan over exactly the given packages, with the policy's number of shards |
| Selector.DealtSize | scripts/targeted-testacc/selector.go:110-118 | round-robin gives each shard the full rounds plus one if its turn has passed |
| Selector.DealIsPartition | scripts/targeted-testacc/selector.go:110-118 | dealing partitions the packages into nonempty shards of sizes that differ by at most one |
| Selector.ValidateShardPlan | scripts/targeted-testacc/selector.go:126-173 | accepts exactly the empty plan and the plans whose nonempty shards partition a duplicate-free selection |
| Selector.OneShardEach | scripts/targeted-testacc/selector.go:126-173 | in an accepted plan a package is in exactly one shard if selected, in none otherwise |
| Selector.Phases | scripts/targeted-testacc/main.go:96-191 | the phases hold exactly the mandatory acceptance packages |
| Selector.Run | scripts/targeted-testacc/main.go:105-217 | for valid flags a plan the validator accepts that selects every acceptance package when forced or when the mandatory ones are more than the given share, else exactly the mandatory ones; each in one shard, balanced, with the number of shards the flags give |
| Rotation.WaitingOrder | scripts/schema-coverage-rotation/memory.go:310-333 | the comparison is a total order on candidates |
| Rotation.Memory.SelectEntities | scripts/schema-coverage-rotation/memory.go:295-343 | the n entities that have waited longest, longest first |
| Rotation.OldestUnique | scripts/schema-coverage-rotation/memory.go:295-343 | the selection is determined by the memory, whatever the map order |
| Rotation.SelectionIs | scripts/schema-coverage-rotation/memory.go:310-343 | a selection lists never analysed before analysed, then the older, then by kind and name, and leaves none out that has waited longer |
| Rotation.Memory.Record | scripts/schema-coverage-rotation/main.go:240-267 | refuses an empty or malformed list as a whole, otherwise stamps exactly the listed entities |
| Rotation.Memory.Round | scripts/schema-coverage-rotation/main.go:169-274 | select piped into record stamps exactly the oldest n, or nothing when one of them has no name |
| Rotation.Memory.Reconcile | scripts/schema-coverage-rotation/memory.go:257-291 | exactly the inventory, old stamps kept, newcomers never analysed, and the right counts |
| Rotation.ReconciledIs | scripts/schema-coverage-rotation/memory.go:257-291 | exactly the inventory, with old stamps, newcomers never analysed |
| Rotation.ReconcileSettles | scripts/schema-coverage-rotation/memory.go:257-291 | reconciling twice is reconciling once, and it changes nothing exactly when the inventory is unchanged |
| Rotation.Memory.NormalizeKeys | scripts/schema-coverage-rotation/memory.go:158-171 | both kinds hold their migration, with its counts |
| Rotation.NormalizeEntries | scripts/schema-coverage-rotation/memory.go:181-201 | for any map order the migration of the entries and its counts |
| Rotation.NormalizedIs | scripts/schema-coverage-rotation/memory.go:181-201 | in the migration each canonical key holds the newest stamp of the names that migrate to it; entries are conserved up to counted collisions |
| Rotation.CanonicalKey | scripts/schema-coverage-rotation/memory.go:203-209 | the canonical key of a name is the name with the prefix, added when it is missing |
| Rotation.MergedUnique | scripts/schema-coverage-rotation/memory.go:181-223 | the migration does not depend on map order |
| Rotation.NormalizedFixed | scripts/schema-coverage-rotation/memory.go:181-209 | migrating twice is migrating once |
| Rotation.WindowCount | scripts/schema-coverage-rotation/memory.go:295-343 | with named entities and rising times, any window of k rounds of select and record visits min(N, k n) different entities, and the rest wait ahead of them |
| Rotation.Fairness | scripts/schema-coverage-rotation/memory.go:295-343 | then every entity is selected within any ceil(N/n) consecutive rounds |
| Rotation.NoEarlyRepeat | scripts/schema-coverage-rotation/memory.go:295-343 | then none is picked again in a window while enough unpicked ones remain; otherwise all of those are picked |
| RotationTimes.RisingIsFair | scripts/schema-coverage-rotation/main.go:253-267 | over rising times (the last may be any) every run of named entities is fair |
| RotationTimes.NotFair | scripts/schema-coverage-rotation/main.go:253-267 | over any other times a run of two entities starves one of them |
| RotationTimes.FairIffRising | scripts/schema-coverage-rotation/main.go:253-267 | every run from a memory of named entities before the times, for any size of a round, is fair if and only if each time but the last is later than the one before |
| RotationNames.RefusedForEver | scripts/schema-coverage-rotation/main.go:240-267 | once a round is refused, every later round selects the same and stamps nothing |
| RotationNames.NamelessBlocks | scripts/schema-coverage-rotation/main.go:240-267 | a memory in which an entity without a name keeps another from ever being selected |
| RotationNames.NamelessIsUnfair | scripts/schema-coverage-rotation/main.go:240-267 | any memory with an entity without a name and another entity is unfair for some size of a round, over rising times |
| RotationNames.FairMemoryIff | scripts/schema-coverage-rotation/main.go:169-274 | a memory is fair over all rising times and sizes of a round if and only if all its entities have names or it has at most one |
| Versions.PrintReads | scripts/version-matrix/tags.go:81-149 | a printed version reads back, loosely and as a tag, and is no SNAPSHOT |
| Versions.TagsAreSupported | scripts/version-matrix/tags.go:31-116 | a tag that is read at all is an 8.x or 9.x version in range |
| VersionTexts.TagIff | scripts/version-matrix/tags.go:31-116 | a tag is read as a version if and only if it is a `v`, major 8 or 9, and two runs of digits in range, with those numbers |
| Versions.LatestPatchPerMinor | scripts/version-matrix/tags.go:65-87 | exactly the newest tagged patch of every tagged minor, in version order |
| Versions.LatestUnique | scripts/version-matrix/tags.go:65-87 | the result depends on the tags alone |
| Versions.TaggedHasLatest | scripts/version-matrix/tags.go:65-87 | every tagged minor has an entry |
| Matrix.PinnedGAForMinor | scripts/version-matrix/compute.go:66-78 | the search loop returns the first pinned release of the minor, or nothing |
| Matrix.PinnedGAFinds | scripts/version-matrix/compute.go:66-78 | for a real minor the empty string means exactly that no release of it is pinned |
| Matrix.PinnedSnapshotUncoveredBy | scripts/version-matrix/compute.go:57-64 | the first pinned SNAPSHOT whose minor no release covers, or nothing |
| Matrix.SortVersions | scripts/version-matrix/artifact.go:84-95 | a permutation with releases before SNAPSHOTs, each by version |
| Matrix.ComputeDesired | scripts/version-matrix/compute.go:26-55 | fails exactly when nothing supported is tagged or a probe it needs fails; otherwise the desired list |
| ReleaseChoice.MinorHas | scripts/version-matrix/compute.go:26-48 | the minor of a newest patch has exactly this release: the patch if it is pinned or its images exist, else the first pinned release of the minor |
| ReleaseChoice.NewestAdoptedIff | scripts/version-matrix/compute.go:34-48 | a newest patch is in the result if and only if it is pinned or its images exist |
| ReleaseChoice.MinorLostIff | scripts/version-matrix/compute.go:34-48 | a tagged minor has no release if and only if its newest patch has no images and none of it is pinned |
| ReleaseChoice.ReleasesTagged | scripts/version-matrix/compute.go:26-48 | every release of a result stands for a tagged minor |
| ReleaseChoice.SnapshotIs | scripts/version-matrix/compute.go:49-64 | the SNAPSHOT is the first pinned one whose minor gets no release, else the label, if there is one |
| ReleaseChoice.ResultOrder | scripts/version-matrix/artifact.go:84-95 | releases before SNAPSHOTs, each by version |
| Matrix.OnePerMinor | scripts/version-matrix/compute.go:26-55 | at most one release per minor, at most one SNAPSHOT, no entry twice |
| Matrix.NoCoverageLost | scripts/version-matrix/compute.go:26-55 | a minor that is still tagged and has a pinned release keeps a release |
| Matrix.NewReleasesProbed | scripts/version-matrix/compute.go:34-48 | a release not pinned before is the newest patch of its minor and passed the probe |
| Matrix.Idempotent | scripts/version-matrix/compute.go:26-78 | fed its own result with the same tags, label and probe, it succeeds again and returns the same list |
| Artifact.ValidatePinnedVersions | scripts/version-matrix/artifact.go:45-62 | accepts exactly nonempty, duplicate-free lists of 8.x and 9.x versions |
| VersionTexts.ValidIff | scripts/version-matrix/artifact.go:45-62 | a printed version, with the suffix or without, is a valid entry if and only if its major is 8 or 9 |
| Artifact.ResultReadsBack | scripts/version-matrix/artifact.go:30-62 | from a valid artifact the result is valid again if and only if some minor gets a release, a pinned SNAPSHOT is kept or there is a label; and a label that no pinned SNAPSHOT keeps out is valid |
| Artifact.LabelAccepted | scripts/version-matrix/snapshot.go:34-68 | the label parser accepts any three runs of digits before the suffix |
| VersionTexts.LabelIff | scripts/version-matrix/snapshot.go:34-68 | a label is adopted if and only if it is three runs of digits and the suffix |
| Artifact.LabelRefusedLater | scripts/version-matrix/compute.go:26-55 | any label the parser accepts and the reader refuses is adopted, so that the list written is not valid |
| Artifact.TenIsRejected | scripts/version-matrix/snapshot.go:34-68 | such a label: the parser accepts major 10 |
| Backoff.DelayIsPolicy | internal/asyncutils/backoff_poller.go:90-95 | without overflow the k-th delay is Initial, then min(Initial 2^(k-1), Max), or flat without Max |
| Backoff.PolicyIffNoOverflow | internal/asyncutils/backoff_poller.go:90-95 | the loop follows the policy for every k if and only if doubling cannot leave 64 bits |
| Backoff.PollWithBackoff | internal/asyncutils/backoff_poller.go:65-98 | for every trace: stops at the first attempt that stops it, with that attempt's answer; MaxAttempts bounds the calls; the waits are the delays in order |
| Backoff.PollInterval | internal/asyncutils/state_waiter.go:48-70 | the last positive interval asked for, or the default |
| Backoff.IntervalIs | internal/asyncutils/state_waiter.go:36-70 | it is the last positive interval asked for, or two seconds when there is none |
| Backoff.WaitForStateTransition | internal/asyncutils/state_waiter.go:66-95 | no check when the context is done; otherwise ends at the first verdict or cancellation, with a flat delay |
| Backoff.WaitForTerminalOrDesiredState | internal/asyncutils/state_waiter.go:115-145 | ends at the first desired, terminal, missing or failing look, with the matching error, and never polls past it |
| Backoff.EndUnique | internal/asyncutils/state_waiter.go:115-145 | where and how a wait ends is determined by the looks |
| CompositeIds.ParsePrint | internal/clients/composite_id.go:42-66 | printing can be undone exactly when the cluster part has no slash and the resource part is not empty |
| CompositeIds.PrintParse | internal/clients/composite_id.go:42-66 | parsing accepts exactly those printed forms and loses nothing |
| CompositeIds.ValidateIdentity | internal/entitycore/resource_envelope.go:327-352 | refuses exactly an unset or empty identity, except on a create that allows it |
| CompositeIds.RunKeepsIdentity | internal/entitycore/composite_id.go:46-69 | after any sequence of updates the id is the original UUID, a slash, and the last identity written |
| CompositeIds.IdentityIff | internal/entitycore/composite_id.go:46-69 | that holds along every sequence of updates if and only if the UUID is slash-free and the first identity not empty |
| CompositeIds.ReadsLastWrite | internal/entitycore/resource_envelope.go:266-294 | read and delete resolve to exactly the last identity written |
| CompositeIds.ReadPrecedence | internal/entitycore/resource_envelope.go:266-294 | a read resolves to the model's own identity, else the one just written, else the resource part of the state id |
| CompositeIds.LiveClusterIgnored | internal/entitycore/composite_id.go:46-69 | updates never depend on what the live cluster would answer |
| CompositeIds.LegacyIdKept | internal/entitycore/resource_envelope.go:266-294 | an id that was never composite stays as it is and is read back through the fallbacks |

## Left out

- Framework wiring, HTTP, GitHub, registries, git, `go list`, file I/O, JSON and YAML decoding: their results are arbitrary inputs.
- Go AST and type inspection behind usage marks, entity names and call graphs: taken as finite maps and sets; `jsonFields` is a given map without empty names.
- The hard-coded `fix*` and path-specific transforms, and the transforms that drop information on purpose.
- Path-level parameters and discriminator mappings: the prune and rename passes do not scan them either.
- `Delete` and `Move` of the document algebra, rendering of summaries, logging and jitter: they would only add easy members.
- The unbounded recursion of `view` and `bodyGaps`: a cycle made only of `allOf` edges, or a cycle of union bodies reached from the request body, makes the code recurse without end; `SchemaView.BuildView` requires that the document has no such `allOf` cycle (`AllOfAcyclic`) and `Walk.Walker.BodyGaps` that the body reaches no such union cycle (`UnionsEnd`; an opaque type ends a cycle).
- YAML aliases, and non-mapping `properties` or non-sequence lists, which the model reads as empty.
- Index tokens with exotic white space: `Oas` models the blanks, sign and digits that the index scan reads.
- Aliasing in the document: JSON trees are values, so an edit through a shared map is modelled only where the pass itself writes.
- CreateRef.Schema.CreateRef: keys that spell an index in a non-canonical way (such as `007`) are excluded, as is a subtree that holds the new component or lies in it, and equality of schemas is equality of JSON values, which is what comparing normalised copies amounts to.
- LiftReferences.LiftDanglesIff: lifting the text of a `$ref` itself, or lifting a string to a component named `$ref`, is not covered.
- Iteration.Iterate: the callback notes its visits; `Passes.IterateEditing` runs the editing callbacks.
- Selector.Run: the run-all percentage is a real number, and the consumers found by scanning test files are an input.
- Rotation.Memory.Round: times are the whole seconds the memory file keeps.
- Backoff.PollWithBackoff: a run is a finite trace, jitter is not added to the waits, and the attempt counter is unbounded.
- The stability of the library's stable sort: no claim depends on it, because the order tells the entries of a result apart.
