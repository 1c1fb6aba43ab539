# HotChocolate / StrawberryShake core, modelled in Dafny

This project models five small pieces of the HotChocolate GraphQL server and the
StrawberryShake GraphQL client and proves what each of them promises.

- **Client operation store** (`OperationStore.dfy`). This is the registry that StrawberryShake
  keeps from operation request to stored operation. Each stored operation holds a last result,
  the entity ids that result depends on, a version and a last-modified time. Every change is
  written to an update queue as one record: a kind (`Updated` or `Removed`) plus a list of
  operation records. The store keeps the normalized entity store clean. After a removal, only
  entities that some registered operation still depends on survive. An entity-store update
  rechecks exactly the operations that are older than the update and depend on a changed
  entity. The store is a class whose methods update its registry map, its queue and its
  disposed flag in place. The loops of `Clear`, `GetAll` and `OnEntityUpdate` are methods
  over the registry's entries, proved against recursive specification functions.
- **Variable validation rules** (`VariableRules.dfy`). These are the document-validator rules
  for variables, after sections 5.8.1 to 5.8.5 of the GraphQL June 2018 specification.
  `AreTypesCompatible` and `IsVariableUsageAllowed` are pure recursive functions. They are
  related by lemmas to an independent reading of compatibility: the two types are flattened
  into levels and compared level by level. The visitor's bookkeeping (declared, used, unused
  and seen names) is a class whose handlers update those sets and append validation errors.
- **Fragment grammar** (`Fragments.dfy`). These are the fragment productions of the UTF-8
  parser, after section 2.8 of the GraphQL June 2018 specification. A parser object moves a
  cursor over a token sequence. Each parse method is proved to agree with a recursive
  specification function that gives the node and the end position, or the error.
- **Type-reference specificity** (`DescriptorHelpers.dfy`). This is the decision table that
  says whether a new type for a field replaces the configured type reference. It also covers
  the guarded assignment that applies the decision.
- **Read-only feature collection** (`Features.dfy`). This is a frozen snapshot of a feature
  collection. The constructor seals every sealable feature in a loop. Lookups are pure reads
  and every mutator fails.

`Wrappers.dfy` holds the `Option` and `Result` types that model null and thrown exceptions.

Where the source throws, the model returns a failure value: `Status.ObjectDisposed`,
`Result.Failure(...)` or `Outcome.FeatureMissing`. A clock reading becomes a `now: nat`
parameter. Calls into code that is not part of this model become parameters or small
specified collaborators.

## Model

Paths are relative to the repository root.

| member | source | states |
|---|---|---|
| OperationStore.Rechecked | src/StrawberryShake/Client/src/Core/OperationStore.cs:171-174 | an entity update never lowers an operation's version and never touches its result, its dependencies or its completion |
| OperationStore.StaleUpdateIgnored | src/StrawberryShake/Client/src/Core/OperationStore.cs:171 | version gating: an update that is not newer than the operation leaves it exactly as it was |
| OperationStore.EnumeratesAppend | src/StrawberryShake/Client/src/Core/OperationStore.cs:175-179 | appending the record of a request not yet listed keeps a listing exact for the enlarged map |
| OperationStore.EnumeratesExactly | src/StrawberryShake/Client/src/Core/OperationStore.cs:128-133 | a listing of a map has one record per entry, each record equals the entry of its request, and no request is listed twice |
| OperationStore.StoredOperation.SnapshotIsVersionOf | src/StrawberryShake/Client/src/Core/OperationStore.cs:203-213 | the record the store reads from a stored operation (request, last result, subscribers, last-modified time) is the record of its state, the one an entity update is specified to list |
| OperationStore.ListEntries | src/StrawberryShake/Client/src/Core/OperationStore.cs:169 | enumerating the registry visits every registered request exactly once, each paired with its stored operation |
| OperationStore.StaleVersionsAdd | src/StrawberryShake/Client/src/Core/OperationStore.cs:171-179 | one more operation adds its record to the rechecked records exactly when the update rechecks it |
| OperationStore.StaleListEnumerates | src/StrawberryShake/Client/src/Core/OperationStore.cs:167-181 | visiting each operation once, in any order, lists exactly the records of the operations the update rechecks |
| OperationStore.ListOfEnumerates | src/StrawberryShake/Client/src/Core/OperationStore.cs:128-133 | visiting each request once, in any order, lists exactly the entries of a map whose records are filed under their own requests |
| OperationStore.Records | src/StrawberryShake/Client/src/Core/OperationStore.cs:128-133 | the lazy projection has one record per captured operation |
| OperationStore.RecordsRead | src/StrawberryShake/Client/src/Core/OperationStore.cs:128-133 | each element of the projection is the record of the operation at its index, read from the operation when it is enumerated |
| OperationStore.RecordsListEntries | src/StrawberryShake/Client/src/Core/OperationStore.cs:128-133 | projecting the captured operations, while they still hold the records they held when captured, lists exactly those records in capture order |
| OperationStore.CaptureAll | src/StrawberryShake/Client/src/Core/OperationStore.cs:128 | capturing the registry's values yields only registered operations, and their projection enumerates the registry's records, each once |
| OperationStore.CompleteAll | src/StrawberryShake/Client/src/Core/OperationStore.cs:83-89 | completes every operation of the removed registry and nothing else about them, listing each one's record once |
| OperationStore.CompleteEach | src/StrawberryShake/Client/src/Core/OperationStore.cs:86-89 | the loop of `Clear` completes every detached operation and lists their records in visiting order |
| OperationStore.RecheckEach | src/StrawberryShake/Client/src/Core/OperationStore.cs:169-181 | the loop of `OnEntityUpdate` applies the recheck to every operation (changing only the stale ones) and lists the records of the stale ones |
| OperationStore.StoredOperation.constructor | src/StrawberryShake/Client/src/Core/OperationStore.cs:194 | a new stored operation has no result, no dependencies, version 0, no subscribers and is not completed; its dependencies are those of its (absent) result |
| OperationStore.StoredOperation.SetResult | src/StrawberryShake/Client/src/Core/OperationStore.cs:42 | storing a result installs it with its entity ids and version and stamps the time; nothing else changes; the dependencies are exactly the result's |
| OperationStore.StoredOperation.ClearResult | src/StrawberryShake/Client/src/Core/OperationStore.cs:60 | clearing drops the result and its dependencies and stamps the time; nothing else changes; no result, no dependencies |
| OperationStore.StoredOperation.UpdateResult | src/StrawberryShake/Client/src/Core/OperationStore.cs:174 | a recheck moves the operation to the update's version and stamps the time; nothing else changes |
| OperationStore.StoredOperation.Complete | src/StrawberryShake/Client/src/Core/OperationStore.cs:73 | completing sets the completed flag and nothing else |
| OperationStore.EntityStore.RemoveEntityRange | src/StrawberryShake/Client/src/Core/OperationStore.cs:97-102 | one update session removes exactly the given entities |
| OperationStore.OperationStore.constructor | src/StrawberryShake/Client/src/Core/OperationStore.cs:25-30 | a new store is empty, live, listening to the entity store and has an empty queue |
| OperationStore.OperationStore.GetOrAddStoredOperation | src/StrawberryShake/Client/src/Core/OperationStore.cs:190-201 | get-or-create: an existing request yields its registered instance; an unknown one yields a fresh, registered, empty operation; no other entry changes |
| OperationStore.OperationStore.Publish | src/StrawberryShake/Client/src/Core/OperationStore.cs:230-233 | a record is appended to the queue unless the queue is completed; earlier records are unchanged |
| OperationStore.OperationStore.CollectUsedEntityIds | src/StrawberryShake/Client/src/Core/OperationStore.cs:101 | the computed set is the union of the entity ids of all registered operations (the retain set) |
| OperationStore.OperationStore.CleanEntityStore | src/StrawberryShake/Client/src/Core/OperationStore.cs:95-103 | after cleanup the entity store holds exactly its former ids that lie in the retain set |
| OperationStore.OperationStore.Set | src/StrawberryShake/Client/src/Core/OperationStore.cs:32-44 | once disposed: fails and changes nothing; otherwise the request maps to its one stored operation (the same instance if it existed, with its subscribers and completion kept; a fresh one with none otherwise), which holds the result with its dependencies, version and time, and exactly one `Updated` record with that one operation is appended; other entries are untouched; the store stays valid |
| OperationStore.OperationStore.SetLive | src/StrawberryShake/Client/src/Core/OperationStore.cs:38-43 | the body of `Set` on a live store, with the same guarantees, and the stored operation depends on exactly its result's entities |
| OperationStore.OperationStore.Reset | src/StrawberryShake/Client/src/Core/OperationStore.cs:53-64 | an unknown request or a disposed store changes nothing; otherwise the entry stays registered with its result cleared, the entity store keeps exactly its ids that are still in the retain set, and exactly one `Removed` record for it is appended |
| OperationStore.OperationStore.Remove | src/StrawberryShake/Client/src/Core/OperationStore.cs:66-77 | an unknown request or a disposed store changes nothing; otherwise the entry is unregistered and completed, the entity store is cleaned against the remaining operations, and exactly one `Removed` record for it is appended |
| OperationStore.OperationStore.RemoveOne | src/StrawberryShake/Client/src/Core/OperationStore.cs:71-76 | the body of `Remove` for a registered request: unregisters and completes that one operation, leaves the others untouched, keeps exactly the entity ids still retained, and appends its `Removed` record |
| OperationStore.OperationStore.Clear | src/StrawberryShake/Client/src/Core/OperationStore.cs:79-93 | once disposed: fails and changes nothing; otherwise the registry is empty, every former operation is completed, the entity store is empty, and exactly one `Removed` record listing every former operation once is appended |
| OperationStore.OperationStore.RemoveAll | src/StrawberryShake/Client/src/Core/OperationStore.cs:83-92 | the body of `Clear` on a live store: the registry is empty, every former operation is completed, the entity store is empty, and exactly one `Removed` record is appended whose list enumerates every former operation's record once |
| OperationStore.OperationStore.DetachAll | src/StrawberryShake/Client/src/Core/OperationStore.cs:83-89 | takes the values, empties the registry (so nothing is retained) and completes each former operation, changing nothing else about it, listing every one of them once |
| OperationStore.OperationStore.RecheckAll | src/StrawberryShake/Client/src/Core/OperationStore.cs:167-181 | every registered operation is rechecked against the update, and the records listed are exactly those of the stale operations |
| OperationStore.OperationStore.OnEntityUpdate | src/StrawberryShake/Client/src/Core/OperationStore.cs:160-188 | ignored once disposed; otherwise exactly the operations that are older than the update and share an entity with it are moved to its version; one `Updated` record listing exactly them is appended, or none when there are none |
| OperationStore.OperationStore.RecheckAndPublish | src/StrawberryShake/Client/src/Core/OperationStore.cs:167-187 | the body of `OnEntityUpdate` on a live store: the records it lists enumerate the stale operations, it lists none exactly when none is stale, and the queue gains one `Updated` record with them only when there are some |
| OperationStore.OperationStore.TryGet | src/StrawberryShake/Client/src/Core/OperationStore.cs:105-122 | fails once disposed; otherwise finds a result exactly when the request is registered and has a last result, returns that result, and returns null otherwise |
| OperationStore.OperationStore.GetAll | src/StrawberryShake/Client/src/Core/OperationStore.cs:124-134 | fails once disposed; otherwise returns the registered operations, each once, together with the lazy projection `Records` over them, which at the time of the call enumerates every registered operation's record once |
| OperationStore.OperationStore.GetUsedEntityIds | src/StrawberryShake/Client/src/Core/OperationStore.cs:136-141 | fails once disposed; otherwise an id is returned exactly when some registered operation depends on it |
| OperationStore.OperationStore.Watch | src/StrawberryShake/Client/src/Core/OperationStore.cs:143-151 | fails once disposed; otherwise returns the registered instance for the request, or a fresh registered one with no result, no dependencies, version 0, no subscribers and not completed when there is none |
| OperationStore.OperationStore.Dispose | src/StrawberryShake/Client/src/Core/OperationStore.cs:235-245 | completes the queue, stops listening and marks the store disposed; registry and queue contents are kept; a second call changes nothing |
| VariableRules.NullableType | src/HotChocolate/Core/src/Validation/Rules/VariableVisitor.cs:308-310 | the nullable form of a well-formed type is well-formed and not non-null; a nullable type is its own nullable form |
| VariableRules.AreTypesCompatible | src/HotChocolate/Core/src/Validation/Rules/VariableVisitor.cs:319-367 | the compatibility check; its meaning is stated by `CompatibilityCases` case by case and by `CompatibleIffLayersAllowed` against the independent level-by-level reading, in both directions |
| VariableRules.IsVariableUsageAllowed | src/HotChocolate/Core/src/Validation/Rules/VariableVisitor.cs:294-316 | the usage check; `UsageWithoutDefault`, `UsageWithDefault` and `DefaultsOnlyRelax` state what it allows with and without defaults |
| VariableRules.CompatibilityCases | src/HotChocolate/Core/src/Validation/Rules/VariableVisitor.cs:319-367 | a non-null location needs a non-null variable, compared after stripping both; a non-null variable at a nullable location is compared by its inner type; a list location needs a list variable; a list never fits a named type; named types fit iff their names are equal |
| VariableRules.CompatibleReflexive | src/HotChocolate/Core/src/Validation/Rules/VariableVisitor.cs:319-367 | every type is compatible with itself |
| VariableRules.NonNullFitsNullableForm | src/HotChocolate/Core/src/Validation/Rules/VariableVisitor.cs:334-339 | a non-null variable type is compatible with the nullable form of the same location type |
| VariableRules.CompatibleIffLayersAllowed | src/HotChocolate/Core/src/Validation/Rules/VariableVisitor.cs:319-367 | for every variable type and well-formed location type, compatibility holds iff both have the same list/named levels, the same base name, and the variable is non-null at every level where the location is |
| VariableRules.UsageWithoutDefault | src/HotChocolate/Core/src/Validation/Rules/VariableVisitor.cs:299-315 | without a default on either side, a usage is allowed iff the types are compatible; so a nullable variable at a non-null location is rejected |
| VariableRules.UsageWithDefault | src/HotChocolate/Core/src/Validation/Rules/VariableVisitor.cs:299-315 | with a default on the variable or the location, the usage is checked against the location's nullable type |
| VariableRules.DefaultsOnlyRelax | src/HotChocolate/Core/src/Validation/Rules/VariableVisitor.cs:294-316 | a usage whose types are compatible is allowed whatever the defaults |
| VariableRules.LocationDefault | src/HotChocolate/Core/src/Validation/Rules/VariableVisitor.cs:255-260 | only an argument or an object field supplies a location default |
| VariableRules.VariableVisitorFeature.constructor | src/HotChocolate/Core/src/Validation/Rules/VariableVisitor.cs:369-377 | a new feature starts with four empty name sets |
| VariableRules.VariableVisitorFeature.Reset | src/HotChocolate/Core/src/Validation/Rules/VariableVisitor.cs:379-385 | reset empties all four name sets |
| VariableRules.LeaveErrors | src/HotChocolate/Core/src/Validation/Rules/VariableVisitor.cs:77-85 | "not used" is reported iff its set is non-empty, "not declared" iff its set is non-empty; no other error is reported, and when both are reported "not used" comes first |
| VariableRules.VariableVisitor.EnterOperation | src/HotChocolate/Core/src/Validation/Rules/VariableVisitor.cs:61-67 | entering an operation gets or creates the feature and clears all four sets; no error is reported |
| VariableRules.VariableVisitor.LeaveOperation | src/HotChocolate/Core/src/Validation/Rules/VariableVisitor.cs:69-88 | leaving removes used names from unused and declared names from used, then reports declared-but-unused and used-but-undeclared names, each only when non-empty, the unused names first; a missing feature fails |
| VariableRules.VariableVisitor.EnterVariableDefinition | src/HotChocolate/Core/src/Validation/Rules/VariableVisitor.cs:90-116 | a definition adds its name to unused, declared and seen; reports a known non-input type; reports a second definition of the same name |
| VariableRules.VariableVisitor.EnterVariable | src/HotChocolate/Core/src/Validation/Rules/VariableVisitor.cs:247-271 | a usage adds its name to used and reports a defined variable whose usage is not allowed at the current location type with the location's default |
| Fragments.SpreadOfName | src/HotChocolate/Language/src/Language.Utf8/Utf8GraphQLParser.Fragments.cs:16-21 | `...` followed by a name other than `on` yields a fragment spread of that name, and succeeds iff its directives parse |
| Fragments.InlineFragmentOnType | src/HotChocolate/Language/src/Language.Utf8/Utf8GraphQLParser.Fragments.cs:25-31 | `... on T` yields an inline fragment with type condition `T`, and fails when no name follows `on` |
| Fragments.InlineFragmentWithoutCondition | src/HotChocolate/Language/src/Language.Utf8/Utf8GraphQLParser.Fragments.cs:23-31 | `...` followed by a token that is neither a name nor `on` yields an inline fragment with no type condition |
| Fragments.FragmentNeedsSpread | src/HotChocolate/Language/src/Language.Utf8/Utf8GraphQLParser.Fragments.cs:15 | a fragment that does not start with `...` fails with an error at that token |
| Fragments.FragmentNameRejectsOn | src/HotChocolate/Language/src/Language.Utf8/Utf8GraphQLParser.Fragments.cs:150-153 | a fragment name reading `on` is rejected with an error for that token's kind |
| Fragments.NoFragmentNamedOn | src/HotChocolate/Language/src/Language.Utf8/Utf8GraphQLParser.Fragments.cs:148-155 | no successful parse yields a fragment spread or a fragment definition named `on` |
| Fragments.DefinitionWithoutFragmentVars | src/HotChocolate/Language/src/Language.Utf8/Utf8GraphQLParser.Fragments.cs:71-89 | with fragment variables disabled, a definition has no variable definitions and `on` directly follows its name |
| Fragments.ModesAgreeWithoutParenthesis | src/HotChocolate/Language/src/Language.Utf8/Utf8GraphQLParser.Fragments.cs:49-90 | without `(` after the name both modes parse alike, so a definition without `on` after its name fails in both |
| Fragments.DefinitionWithFragmentVars | src/HotChocolate/Language/src/Language.Utf8/Utf8GraphQLParser.Fragments.cs:49-55 | with fragment variables enabled, the definitions read between the name and `on` are the definition's variable definitions, and `on` follows them |
| Fragments.Parser.ParseFragmentName | src/HotChocolate/Language/src/Language.Utf8/Utf8GraphQLParser.Fragments.cs:148-155 | the method yields the node, the cursor position or the error that the fragment-name production gives |
| Fragments.Parser.ParseFragmentSpread | src/HotChocolate/Language/src/Language.Utf8/Utf8GraphQLParser.Fragments.cs:101-113 | the method agrees with the fragment-spread production |
| Fragments.Parser.ParseInlineFragment | src/HotChocolate/Language/src/Language.Utf8/Utf8GraphQLParser.Fragments.cs:126-141 | the method agrees with the inline-fragment production |
| Fragments.Parser.ParseFragment | src/HotChocolate/Language/src/Language.Utf8/Utf8GraphQLParser.Fragments.cs:11-32 | the method agrees with the fragment production, so the properties above hold for the parser |
| Fragments.Parser.ParseFragmentDefinition | src/HotChocolate/Language/src/Language.Utf8/Utf8GraphQLParser.Fragments.cs:39-91 | the method agrees with the fragment-definition production in both modes |
| DescriptorHelpers.IsExtendedTypeMoreSpecific | src/HotChocolate/Core/src/Types/Types/Helpers/DescriptorHelpers.cs:36-52 | a schema reference is never replaced; a null reference always is |
| DescriptorHelpers.IsTypeNodeMoreSpecific | src/HotChocolate/Core/src/Types/Types/Helpers/DescriptorHelpers.cs:54-66 | a null node never wins; a schema reference is never replaced |
| DescriptorHelpers.SetMoreSpecificExtendedType | src/HotChocolate/Core/src/Types/Types/Helpers/DescriptorHelpers.cs:10-21 | returns the same definition; its type becomes a reference to the runtime type iff the specificity check holds, and nothing else changes; the new reference is the one `Refine` gives for that hint |
| DescriptorHelpers.SetMoreSpecificTypeNode | src/HotChocolate/Core/src/Types/Types/Helpers/DescriptorHelpers.cs:23-34 | returns the same definition; its type becomes a syntax reference to the node iff the specificity check holds, and nothing else changes; the new reference is the one `Refine` gives for that hint |
| DescriptorHelpers.SchemaReferenceNeverReplaced | src/HotChocolate/Core/src/Types/Types/Helpers/DescriptorHelpers.cs:40-61 | neither overload ever replaces a schema type reference |
| DescriptorHelpers.ExtendedTypeWins | src/HotChocolate/Core/src/Types/Types/Helpers/DescriptorHelpers.cs:40-51 | the full decision table of the runtime-type overload, as an if-and-only-if |
| DescriptorHelpers.PlainExtendedTypeReplacesOnlyPlainExtended | src/HotChocolate/Core/src/Types/Types/Helpers/DescriptorHelpers.cs:50-51 | a runtime type that is not a schema type replaces an existing reference iff that reference is an extended reference whose type is not a schema type |
| DescriptorHelpers.TypeNodeReplacesOnlyNullOrSyntax | src/HotChocolate/Core/src/Types/Types/Helpers/DescriptorHelpers.cs:63-65 | a type node wins iff it is non-null and the existing reference is null or a syntax reference |
| DescriptorHelpers.SchemaReferenceIsFinal | src/HotChocolate/Core/src/Types/Types/Helpers/DescriptorHelpers.cs:10-34 | once a schema reference is configured, no sequence of calls to either overload changes it |
| DescriptorHelpers.RefineIdempotent | src/HotChocolate/Core/src/Types/Types/Helpers/DescriptorHelpers.cs:10-34 | repeating a call with the same type has no further effect |
| DescriptorHelpers.SchemaRuntimeTypeSticks | src/HotChocolate/Core/src/Types/Types/Helpers/DescriptorHelpers.cs:45-51 | once a runtime schema type is installed, later runtime types that are not schema types never replace it |
| Features.Feature.Seal | src/HotChocolate/Core/src/Features/ReadOnlyFeatureCollection.cs:30 | sealing makes a sealable feature read-only |
| Features.ReadOnlyFeatureCollection.constructor | src/HotChocolate/Core/src/Features/ReadOnlyFeatureCollection.cs:21-35 | the contents are the source's snapshot and `Revision` is the source's revision; every sealable feature in it is read-only afterwards and the others are untouched |
| Features.ReadOnlyFeatureCollection.IsReadOnly | src/HotChocolate/Core/src/Features/ReadOnlyFeatureCollection.cs:38 | always true |
| Features.ReadOnlyFeatureCollection.IsEmpty | src/HotChocolate/Core/src/Features/ReadOnlyFeatureCollection.cs:41 | true iff there are no features (the corrected reading, see Findings) |
| Features.ReadOnlyFeatureCollection.Revision | src/HotChocolate/Core/src/Features/ReadOnlyFeatureCollection.cs:43 | the source's revision at construction, fixed for the view's lifetime: the constructor ensures it equals the source's revision, and `SnapshotExample` shows it unchanged after the source moves on |
| Features.ReadOnlyFeatureCollection.Item | src/HotChocolate/Core/src/Features/ReadOnlyFeatureCollection.cs:48 | the stored feature for a present key, null for an absent one |
| Features.ReadOnlyFeatureCollection.SetItem | src/HotChocolate/Core/src/Features/ReadOnlyFeatureCollection.cs:49 | the indexer setter always fails with "not supported"; the contents are immutable |
| Features.ReadOnlyFeatureCollection.Set | src/HotChocolate/Core/src/Features/ReadOnlyFeatureCollection.cs:91-92 | always fails with "not supported" |
| Features.ReadOnlyFeatureCollection.CastTo | src/HotChocolate/Core/src/Features/ReadOnlyFeatureCollection.cs:66-68 | the cast keeps null and a feature of the requested type, and fails exactly for a feature of another type |
| Features.ReadOnlyFeatureCollection.Get | src/HotChocolate/Core/src/Features/ReadOnlyFeatureCollection.cs:53-69 | fails with "missing" iff the type is a non-nullable value type and absent, fails with a cast error iff the stored feature is not of the type, and fails in no other way; an absent feature of a reference type or a nullable value type yields null; whenever it succeeds it returns what the indexer returns |
| Features.ReadOnlyFeatureCollection.TryGet | src/HotChocolate/Core/src/Features/ReadOnlyFeatureCollection.cs:72-88 | true iff the key is present and its feature has the requested type; then the feature is returned, otherwise the default |
| Features.ReadOnlyFeatureCollection.TryGetAgreesWithGet | src/HotChocolate/Core/src/Features/ReadOnlyFeatureCollection.cs:53-88 | what `TryGet` finds, `Get` returns; a present feature that `TryGet` refuses makes `Get` fail with a cast error; an absent feature is never found |
| Features.IsEmptyAsWrittenIsInverted | src/HotChocolate/Core/src/Features/ReadOnlyFeatureCollection.cs:41 | `IsEmpty` as written is the negation of emptiness; an empty collection reports that it is not empty |
| Features.SnapshotExample | src/HotChocolate/Core/src/Features/ReadOnlyFeatureCollection.cs:21-43 | an example: after the source collection's contents and revision change, a view still answers from its snapshot (the old feature present, the new key absent), still reports revision 3, and its sealable feature is sealed |

## Left out

- Argument null checks (`ArgumentNullException`) are left out. Dafny values are never null.
- The reflection-based non-generic `Set` in OperationStore.cs (lines 11-15 and 46-51) is left out. Runtime generic dispatch has no Dafny counterpart.
- `OperationStore.OperationStore.TryGet`, `OperationStore.OperationStore.Watch` and `OperationStore.OperationStore.GetOrAddStoredOperation` ignore the result type `T`. The `is StoredOperation<T>` test is not modelled, and neither is the "should never occur" exception.
- The concurrency plumbing is left out: dictionary atomicity, the unbounded channel, the cancellation token source and the background consumer that drains the queue. Calls are sequential, and the queue is the sequence of records written to it.
- Subscription and delivery through `IObservable` are left out, and so is the parameterless `Watch()`. As a result, `subscribers` is carried in every record but never changes.
- `OperationStore.StoredOperation`: the internals of stored operations are not part of this model. `SetResult` takes the dependencies and version from the result's data info. `ClearResult` keeps the version. `UpdateResult` does not recompute the result from the entity store. The store's invariant therefore keeps each operation's dependencies equal to those of the result it holds, but not its version: after `UpdateResult` the version is the update's while the held result still carries its own.
- `OperationStore.EntityStore`: the entity store is reduced to the ids of its current snapshot and one atomic removal. Its own change notifications are the `EntityUpdate` argument of `OnEntityUpdate`.
- `OperationStore.OperationStore.GetUsedEntityIds` states membership only. The source's array repeats an id that several operations share, and its order is the dictionary's.
- `OperationStore.OperationStore.GetAll` and `Clear` list records in the dictionary's enumeration order, which the model leaves open.
- `OperationStore.OperationStore.GetAll` returns a lazy `Select` over the dictionary's values (OperationStore.cs:128-133), so each record is read when the caller enumerates it, not when `GetAll` is called. The model returns the captured operations and the projection `Records` over them, which reads the operations' current fields. Its contract fixes the records only at the time of the call; what a caller sees after a later `Set`, `Reset` or recheck is what `Records` reads then.
- `OperationRequest` equality is modelled as structural equality of a document id, an operation name and variables. OperationRequest.cs is not part of this model.
- Schema lookups in `VariableVisitor` are oracles. `EnterVariableDefinition` receives the schema's answer about the declared type. `EnterVariable` receives the variable map, the current location type and the default on top of the input-field stack.
- The visitor's other handlers are left out: the type, field and directive stack handlers and the `Skip`/`Break`/`Continue` walking semantics. They only maintain the stacks that `EnterVariable` reads.
- The lexer and the sub-parsers that Utf8GraphQLParser.Fragments.cs calls are not part of this model. Names, named types, directives (`@Name` only), selection sets (`{ Name* }`) and variable definitions (`$Name: Name` only) are simplified stand-ins. Source locations and descriptions are left out.
- `ParseFragment` and `ParseFragmentName` compare the token's value with `on` and ignore its kind, as the source does. A string token whose content is `on` counts as the keyword.
- `GetEnumerator` of the feature collection is left out. The `features` map is the enumeration.
- `Features.ReadOnlyFeatureCollection.TryGet`: on failure the out value is `None`. For a value-type `TFeature` the source's `default` is a zero-initialised struct, not null; the model does not construct it.
- Type-level reflection in `Get` (`IsValueType`, `Nullable.GetUnderlyingType`) is abstracted to two flags on the feature type. The `is TFeature` test is a set of runtime types per feature.
- The sealing of default features that the source's comment mentions is not modelled. A `FeatureCollection` here is only a map and a revision.

## Findings

| source | as written | input that shows it | evidently intended | confidence | as-written member | corrected member |
|---|---|---|---|---|---|---|
| src/HotChocolate/Core/src/Features/ReadOnlyFeatureCollection.cs:41 | `IsEmpty` is true when the collection holds at least one feature | a read-only view of an empty collection reports `IsEmpty == false`; one holding a single feature reports `true` | `IsEmpty` is true exactly when there are no features | not executed | Features.IsEmptyAsWrittenIsInverted (about `Features.ReadOnlyFeatureCollection.IsEmptyAsWritten`) | Features.ReadOnlyFeatureCollection.IsEmpty |
