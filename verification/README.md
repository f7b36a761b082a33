# Verification of the proxy's core logic

A Dafny model of the parts of CLIProxyAPI whose correctness is hardest to see from one function, with
machine-checked proofs. `dafny verify dfyconfig.toml` checks everything.

Code that updates objects in place is modelled as classes and methods; each is proved equal to a function on
values, and the promises are proved about those functions and about whole runs of them.

| component | files |
|---|---|
| model registry: a reference-counted index over clients' model lists | `RegistryModel`, `RegistryProofs`, `RegistryEquivalence`, `RegistryPasses`, `RegistryRequests`, `RegistryQueries`, `RegistryCleanup`, `RegistryAvailability` (values), `ModelRegistry` (objects) |
| comment-preserving YAML merge | `YamlTree`, `YamlCoverage`, `YamlMergeCoverage`, `YamlExactness`, `YamlOrder`, `YamlSettings`, `YamlMatching`, `YamlStability`, `YamlIdentified`, `YamlRefinement`, `YamlSave` (trees), `YamlNodes`, `YamlMergeNodes`, `YamlSaveNodes` (node objects) |
| thinking-configuration normaliser | `ThinkingModel`, `ThinkingLevels`, `ThinkingProofs`, `ThinkingFormats`, `ThinkingSuffix` (values), `Thinking` (the step-by-step code) |
| SQL splitter | `SqlSplit`, `SqlQuoting` |
| signature cache | `SignatureCacheModel`, `SignatureCacheFamilies` (values), `SignatureCache` (objects), `SignatureCacheSteps`, `SignatureCacheUndisturbed`, `SignatureCacheStores` (interleaved steps) |
| credential scheduler | `SchedulerModel`, `SchedulerProofs`, `SchedulerChoices`, `SchedulerShares` (values), `Strategies`, `Scheduler` (objects), `SchedulerSteps`, `SchedulerSerial`, `SchedulerRace` (interleaved steps) |

`Text` holds the ASCII string helpers they share.

How to read it:

- **Registry.** The relation is `clientModels` (a list with duplicates per client) and `clientProviders`; the index
  is `models`. Every public call is one atomic step, as the code holds one mutex. Times are parameters. `Info` may
  outlive the client that supplied it, so nothing is claimed about whose it is.
- **YAML.** A `Tree` carries, next to what YAML says of a node, the node object it stands for. Methods on nodes take
  a ghost tree describing the heap below a node and return the tree they leave. `Refines` fills in the objects of
  nodes that were newly allocated. Style, anchors and comments are opaque and travel with their node; the target of
  an alias node is known only up to structure.
- **Thinking.** Support is well formed when `0 <= Min <= Max`, a budget range or levels are given, and a range comes
  with `ZeroAllowed` or a positive `Min`. Theorems that need it say so. Where a promise fails of the code, a lemma
  shows the input and another says exactly when it holds.
- **Signature cache.** The text hash is an arbitrary function, so nothing depends on it being injective.
- **Scheduler.** What the pool manager answers and the random number of a draw are parameters. The error-rate test is
  the integer comparison `2 * errors > requests`.

Where the code and its own comments disagree the code is followed. The comment on `ValidateConfig` promises clamped
values on every success, which four kinds of undocumented input and one of documented input escape
(`ThinkingProofs.InRangeIff`). The one on `mergeNodePreserve` says sequences are updated by index, while their old
elements are first put where they match. The one on `purgeExpiredCaches` speaks of whole caches, while single expired
entries go too.

## Model

| member | source | states |
|---|---|---|
| RegistryProofs.Reachable | internal/registry/model_registry.go:211-598 | After any run of register, unregister, quota, suspend, resume and cleanup calls: Count of a model is the sum over all clients of its occurrences, the model is present exactly when that sum is positive, Providers[p] is the same sum over p's clients with no zero entry, and InfoByProvider has exactly the keys of Providers |
| RegistryProofs.RegisterKeeps | internal/registry/model_registry.go:211-407 | Registering any client with any list (empty, with duplicates, nil entries, blank IDs) and any provider keeps that agreement |
| RegistryProofs.UnregisterKeeps | internal/registry/model_registry.go:544-598 | Unregistering any client, known or not, keeps it |
| RegistryEquivalence.IncrementalEqualsAfresh | internal/registry/model_registry.go:272-407 | For a known client, the incremental update ends in the state of unregistering and registering afresh, apart from lastUpdated, if and only if no stray mark is in the way: the client has none on a model it starts to list, and a model it alone supplies carries no other client's mark; with equal clock readings the states are then equal outright |
| RegistryEquivalence.SoundMarksAreNotStray | internal/registry/model_registry.go:604-680 | When quota and suspension marks sit only on clients that list the model, no mark is stray |
| RegistryEquivalence.ReachableMarksSound | internal/registry/model_registry.go:604-680 | Over every run whose callers mark only supporting clients, marks stay on supporting clients |
| RegistryEquivalence.IncrementalEqualsAfreshInRuns | internal/registry/model_registry.go:211-407 | After any such run, for any client, list and provider, RegisterClient gives the state of UnregisterClient followed by RegisterClient, apart from lastUpdated |
| RegistryRequests.RegistrationOnRecord | internal/registry/model_registry.go:211-407 | A registration with a usable model puts on record the client with each ID as often as the request gives it, its lower-case provider, and for each ID the metadata the request gives first, in the client's books, in the model's record and in the provider's share |
| RegistryRequests.RegistrationForgets | internal/registry/model_registry.go:211-243 | The client no longer lists what the request does not give; a request without a usable model takes it off the books |
| RegistryRequests.OtherMetadataStays | internal/registry/model_registry.go:290-400 | A model the request does not give keeps its metadata and that of the remaining providers as long as it has a record |
| RegistryRequests.OtherClientsStay | internal/registry/model_registry.go:211-407 | The books of every other client stay as they are |
| RegistryRequests.UnknownClientUnregistered | internal/registry/model_registry.go:544-552 | Unregistering a client that is not registered changes nothing |
| RegistryPasses.PassesUpdate | internal/registry/model_registry.go:290-400 | The separate passes of the incremental path (provider shift of the overlap, removals, surplus, additions, metadata) leave each model's record as one reconciliation would |
| RegistryPasses.PassesReconcile | internal/registry/model_registry.go:290-400 | The same for one record, over every old and new count and every provider change, the empty provider included |
| ModelRegistryObjects.ModelRegistry.RegisterClient | internal/registry/model_registry.go:211-407 | Reaches the state Register gives, in place, and keeps the registry valid |
| ModelRegistryObjects.ModelRegistry.UpdateClient | internal/registry/model_registry.go:272-407 | The incremental path, pass by pass over the maps in any order, reaches RegisterKnown's state |
| ModelRegistryObjects.ModelRegistry.AddClient | internal/registry/model_registry.go:245-270 | The path for an unknown client reaches RegisterNew's state |
| ModelRegistryObjects.ModelRegistry.AddModelRegistration | internal/registry/model_registry.go:419-458 | One more supply of a model in its record, creating the record if there is none |
| ModelRegistryObjects.ModelRegistry.RemoveModelRegistration | internal/registry/model_registry.go:460-493 | One supply less, dropping the provider's entry with its last supply and the record with the last of all |
| ModelRegistryObjects.ModelRegistry.UnregisterClient | internal/registry/model_registry.go:537-598 | Reaches Unregister's state: every supply of the client gone, its marks wiped, its books removed |
| ModelRegistryObjects.ModelRegistry.SetModelQuotaExceeded | internal/registry/model_registry.go:604-614 | Reaches SetQuota's state and leaves every counter alone |
| ModelRegistryObjects.ModelRegistry.ClearModelQuotaExceeded | internal/registry/model_registry.go:618-628 | Reaches ClearQuota's state |
| ModelRegistryObjects.ModelRegistry.SuspendClientModel | internal/registry/model_registry.go:633-660 | Reaches Suspend's state; a second suspension changes nothing |
| ModelRegistryObjects.ModelRegistry.ResumeClientModel | internal/registry/model_registry.go:663-680 | Reaches Resume's state |
| ModelRegistryObjects.ModelRegistry.CleanupExpiredQuotas | internal/registry/model_registry.go:1108-1123 | Reaches Cleanup's state: exactly the marks of five minutes and older are gone |
| ModelRegistryObjects.ModelRegistry.GetModelCount | internal/registry/model_registry.go:893-919 | Returns the model's supply less cooling and suspended clients, never negative |
| ModelRegistryObjects.ModelRegistry.GetAvailableModels | internal/registry/model_registry.go:713-760 | Returns exactly the models with a client left or with all clients only waiting for quota, each with its metadata |
| ModelRegistryObjects.ModelRegistry.GetAvailableModelsByProvider | internal/registry/model_registry.go:768-889 | Returns exactly the models of the provider that are on offer by its own clients' counts and marks, with metadata from one of its clients or the index |
| ModelRegistryObjects.ModelRegistry.GetModelProviders | internal/registry/model_registry.go:927-976 | Returns exactly the providers of the model, by falling count then rising name |
| RegistryQueries.PositiveCountHasServer | internal/registry/model_registry.go:893-919 | When no client lists the model twice, a positive count means some registered client of the model is neither suspended nor in its quota cooldown, whatever the marks and whatever else clients list |
| RegistryQueries.CountLaw | internal/registry/model_registry.go:893-919 | In every state that agrees with its relation, the count is the number of clients that can serve, plus the entries by which clients repeat the model, less those both suspended and cooling down, which the code subtracts twice, less the marked clients that do not list it; never below zero |
| RegistryQueries.BackedIff | internal/registry/model_registry.go:893-919 | A positive count is backed by a client that can serve if and only if there is such a client or the repeated entries are no more than what is subtracted too much |
| RegistryQueries.AlwaysBackedIff | internal/registry/model_registry.go:893-919 | For one model, a positive count is backed however its clients are marked if and only if none of them lists it twice |
| RegistryQueries.RepeatedModelCountsSuspendedClient | internal/registry/model_registry.go:893-919 | With a repeated model it fails: a run in which one client registers a model twice and is suspended, with a count of 1 and nobody to serve it |
| RegistryCleanup.CleanupsAreInvisible | internal/registry/model_registry.go:1108-1123 | Leaving out any of the cleanups of a run in time order changes no count and no availability query, at its end or at any later time |
| RegistryCleanup.StepCommutes | internal/registry/model_registry.go:211-680 | Every operation commutes with a cleanup at the same time, so no operation sees expired marks |
| RegistryCleanup.RunsStayAlike | internal/registry/model_registry.go:1108-1123 | Such a run and the shortened one stay equal but for expired quota marks |
| RegistryAvailability.ListedIff | internal/registry/model_registry.go:713-760 | In every state that agrees with its relation a model is listed if and only if its clients that are neither cooling down (marked less than five minutes ago) nor suspended for anything but quota, plus the repeated entries, outnumber those that are both plus the marked ones that do not list it; or nobody is suspended for anything but quota and somebody is cooling down or suspended for quota |
| RegistryAvailability.ListedWithoutRepeats | internal/registry/model_registry.go:713-760 | With no repeated entry and marks on its clients only, said of the model's clients alone |
| RegistryAvailability.ListedByIff | internal/registry/model_registry.go:768-889 | The same per provider, over that provider's clients, their entries trimmed, and their marks |
| RegistryAvailability.MarksLast | internal/registry/model_registry.go:604-680 | Whatever other operations and cleanups follow, until a client is registered or marked again for a model it lists, it serves the model exactly when it is not suspended and has no quota mark younger than five minutes |
| RegistryAvailability.MarkingSetsMarks | internal/registry/model_registry.go:604-680 | Setting, clearing, suspending and resuming change exactly the one mark of the client, a suspension with its reason |
| RegistryAvailability.IdleMarks | internal/registry/model_registry.go:604-680 | A second suspension, a resume without one, and marks for an unlisted model or no client change nothing |
| RegistryAvailability.QuotaMarkLasts | internal/registry/model_registry.go:604-614 | So from a quota mark on the client does not serve the model for five minutes, and then does again unless it is suspended |
| RegistryQueries.ScanEqualsIndex | internal/registry/model_registry.go:768-817 | The count GetAvailableModelsByProvider rebuilds for a model by scanning a provider's clients equals the Providers index if and only if, in those clients' lists, trimming blanks neither turns an entry into that ID nor changes an entry that is it |
| RegistryQueries.ProvidersAreThoseWithClients | internal/registry/model_registry.go:927-976 | A non-empty provider is in a model's Providers exactly when one of its clients lists the model |
| RegistryQueries.RankingUnique | internal/registry/model_registry.go:955-975 | Falling count then rising name fixes the provider list completely |
| RegistryQueries.RankedIff | internal/registry/model_registry.go:955-975 | In a ranked list counts never rise, and equal counts stand in byte order of the names |
| Text.TrimTakesBlanks | internal/registry/model_registry.go:768-790 | Trimming, here and elsewhere, takes space, tab, line feed, vertical tab, form feed and carriage return off both ends, all of them and nothing else |
| Text.LowerLetters | internal/registry/model_registry.go:768-769 | Lower-casing, here and elsewhere, changes the letters A to Z and nothing else |
| YamlMergeCoverage.MergeCovers | internal/config/config.go:1118-1220 | After merging a generated tree with unique keys, in whose sequence elements no blank key stands for a value to be written, into any tree of paired mappings, that tree covers it: each generated key is there with a covering value, or absent with a pruned value that is a known default; scalars agree in kind, tag and value; sequences agree in length and element by element, an explicit null standing for an empty one |
| YamlExactness.MergeCoversIff | internal/config/config.go:1118-1220 | A generated tree with unique keys is covered whatever tree of paired mappings it is merged into if and only if no blank key of a sequence element stands for a value to be written |
| YamlMergeCoverage.PruneMissingCovers | internal/config/config.go:1604-1633 | Pruning a covering element to the generated keys keeps it covering if and only if no blank generated key stands for a value that would have to be written |
| YamlExactness.BlankKeyIsLost | internal/config/config.go:1604-1633 | Merging a sequence of one mapping with an empty key into itself loses the entry |
| YamlCoverage.CoversPruned | internal/config/config.go:1286-1320 | A new value with its defaults pruned still covers the generated one |
| YamlSettings.SettingAfterMerge | internal/config/config.go:1118-1220 | After a merge every generated scalar, at any depth of mappings, is there with its tag and value, unless the user's mappings lack its key and it is one of: bool false; int or float 0 or 0.0; an empty string; null; pprof.addr 127.0.0.1:8316; routing.strategy round-robin; error-logs-max-files 10. Then it is absent |
| YamlSettings.NewKeyIff | internal/config/config.go:1135-1151 | A key the mapping lacks is added behind its old pairs, with its pruned value, if and only if some scalar in the value is none of those (elements of a sequence counting without the three path defaults); a scalar is added as it is |
| YamlSettings.NewScalarInside | internal/config/config.go:1286-1320 | Inside a new value a scalar is left out under the same condition |
| YamlMatching.MergedSequence | internal/config/config.go:1157-1220 | A merged sequence has the generated length and its old tag if it was one; an explicit null stays where nothing is generated; an element that takes over no old one is added whole |
| YamlMatching.MergedMapping | internal/config/config.go:1118-1152 | A merged mapping stays the same node and takes over the generated tag only where the user had no mapping |
| YamlMatching.CopyIsSame | internal/config/config.go:1368-1380 | A copy is the same tree, styles and comments included, without the node objects |
| YamlOrder.MergePreserves | internal/config/config.go:1118-1220 | A merge keeps the node object and comments of everything it merges into, and in mappings the old keys, first, in their order, with the same key nodes, at every depth outside sequence elements |
| YamlOrder.MergedPairs | internal/config/config.go:1135-1151 | A merged mapping is its old pairs in place, each merged at most once with the generated value of its key, followed by the new pairs in generated order |
| YamlOrder.Matching | internal/config/config.go:1402-1465 | Sequence matching is an injective partial matching: no old element is taken twice, and each filled slot holds an element that fits its target |
| YamlOrder.EmptySlotHasNoFit | internal/config/config.go:1424-1465 | A slot stays empty only when no old element that is still free at the end fits its target |
| YamlMatching.TakesOver | internal/config/config.go:1424-1465 | A generated element takes over the first old one still free with its identity or its text; if there is none, the first free one of its structure; and none only if there is no such either |
| YamlMatching.IdentityByName | internal/config/config.go:1467-1489 | The identity of a mapping is the first of id, name, alias, api-key, api_key, apikey, key, provider, model whose first scalar entry, in any case and with blanks around the key, is not blank, with that text |
| YamlMatching.IdentityByFirstText | internal/config/config.go:1467-1489 | Without one of those it is the first scalar entry that is not blank, if there is one |
| YamlMatching.SameStructureIff | internal/config/config.go:1509-1547 | Structural equality is equality of skeletons: kinds, trimmed scalar texts, alias targets and what is below |
| YamlOrder.MatchedElementKeys | internal/config/config.go:1183-1207 | A mapping element taken over for a generated mapping ends with none but the generated mapping's keys |
| YamlOrder.MatchedElementPreserved | internal/config/config.go:1183-1207 | An old element that a generated one takes over keeps its node and comments, and in mappings the pairs it keeps come first, in their order, with the same key nodes and each value preserved |
| YamlStability.MergeTwice | internal/config/config.go:1118-1220 | Merging the same generated tree a second time changes nothing when the first merge left every element in its own place with generated keys only |
| YamlStability.MergeTwiceScalars | internal/config/config.go:1118-1220 | That is always so when its sequences hold only scalars |
| YamlStability.FixedIff | internal/config/config.go:1118-1220 | A tree of distinct nodes is left unchanged by a merge if and only if it covers the generated tree, each sequence element is in its own place, and mapping elements have generated keys only, at every depth. In its own place: it has the identity or text of the generated element, or nothing from there on has and it has the same structure |
| YamlStability.PlaceIff | internal/config/config.go:1402-1465 | With exactly the elements before it taken, the matching gives a generated element the old element at its own position if and only if that one is in its own place |
| YamlStability.SecondMergeCanChangeMappings | internal/config/config.go:1402-1465 | With mappings in sequences a second merge can change the tree: a concrete input |
| YamlIdentified.MergeTwiceIdentified | internal/config/config.go:1118-1220 | A second merge changes nothing when every generated sequence element is a scalar, or a mapping of trimmed lower-case keys with an identity key whose value is always written and none earlier with a value, and the user's mapping keys have no blanks around them |
| YamlIdentified.SpacedKeyChangesSecondMerge | internal/config/config.go:1467-1489 | With blanks around a key of the user's it fails even then: a concrete input |
| YamlNodes.DeepCopy | internal/config/config.go:1368-1380 | A copy made of new nodes only, equal to the original up to node identity |
| YamlNodes.FindMapKeyIndex | internal/config/config.go:1224-1234 | Returns the first position of the key, -1 when the node is no mapping or lacks it |
| YamlNodes.IsZeroValueNode | internal/config/config.go:1325-1365 | Decides zero values, through sequences and mapping values |
| YamlNodes.IsKnownDefaultValue | internal/config/config.go:1250-1282 | Decides zero values and the three defaults known by their path |
| YamlNodes.PruneKnownDefaultsInNewNode | internal/config/config.go:1286-1320 | Prunes in place to what Prune gives, reusing the same nodes |
| YamlNodes.SequenceElementIdentity | internal/config/config.go:1467-1489 | Computes the identity of a mapping element |
| YamlNodes.NodesStructurallyEqual | internal/config/config.go:1509-1547 | Decides structural equality |
| YamlNodes.MatchSequenceElement | internal/config/config.go:1424-1465 | Finds the old element a generated one takes over, by identity or text, then by structure, among the unused |
| YamlMergeNodes.MergeMappingPreserve | internal/config/config.go:1118-1152 | On node objects of any kinds: the tree below dst becomes a refinement of the merged tree, or of the shallow copy when one side is no mapping; it is still a tree, keeps its root, and consists of its old nodes and newly allocated ones; nothing else changes, so the generated tree is untouched and shares no node with it |
| YamlMergeNodes.MergeNodePreserve | internal/config/config.go:1157-1220 | The same for a node of any kind |
| YamlMergeNodes.CopyNodeShallow | internal/config/config.go:1384-1400 | Takes over kind, tag, value and a copy of the content, and stays the same object |
| YamlMergeNodes.ReorderSequenceForMerge | internal/config/config.go:1402-1422 | Puts into each slot the old node its generated element takes over, or nothing |
| YamlMergeNodes.PruneMissingMapKeys | internal/config/config.go:1604-1633 | Deletes in place exactly the pairs whose trimmed key is no generated key, leaving the other nodes where they are |
| YamlSaveNodes.MergedNodesKeepPromises | internal/config/config.go:1118-1220 | Whatever the node merge leaves behind preserves the user's nodes and key order, and covers the generated tree under the condition of MergeCovers |
| YamlSaveNodes.SecondMergeIff | internal/config/config.go:1118-1220 | Merging the same tree into the merged nodes again leaves every one of them as it is if and only if each element is in its own place with generated keys only |
| YamlSaveNodes.SecondMergeOfIdentified | internal/config/config.go:1118-1220 | Under the conditions of MergeTwiceIdentified on what was merged, merging it again leaves every node as it is |
| YamlSaveNodes.PruneMappingToGeneratedKeys | internal/config/config.go:1561-1602 | On node objects: reaches PruneSection's tree |
| YamlSaveNodes.MergeGenerated | internal/config/config.go:989-993 | The node work of a save reaches Saved's tree, in place, adding only new nodes |
| YamlSave.SavedCovers | internal/config/config.go:989-993 | A saved configuration covers the generated one, whatever the oauth sections held, under the condition of MergeCovers |
| YamlSave.SavedPreserves | internal/config/config.go:989-993 | Outside the two oauth sections a save leaves the user's pairs first, in their order, with the same key nodes and each value preserved, and it keeps the root node with its comments |
| YamlSaveNodes.SavedNodesKeepPromises | internal/config/config.go:989-993 | The same of the node objects a save leaves behind |
| YamlSave.SavedSetting | internal/config/config.go:989-993 | What SettingAfterMerge says, of a save, for every setting outside the two oauth sections |
| YamlSaveNodes.MergedNodesKeepSetting | internal/config/config.go:1118-1220 | And of the node objects a merge leaves behind |
| YamlSaveNodes.SavedNodesKeepSetting | internal/config/config.go:989-993 | And of those a save leaves behind |
| YamlSave.SavedSectionKeys | internal/config/config.go:1561-1602 | An oauth section that is generated ends with no entry under a key that was not generated, also when the user's root repeats keys |
| YamlSave.SavedSectionGone | internal/config/config.go:1573-1584 | An oauth section that is no longer generated is gone, except that the alias section stays as an explicit empty mapping when it was there, and that of excluded-models entries repeated in the user's root the second one stays |
| Thinking.ValidateConfig | internal/thinking/validate.go:38-165 | Computes Validate: conversion, special values, level check, strict budget check, auto resolution and clamping, in the code's order and with its errors |
| Thinking.ClampLevel | internal/thinking/validate.go:218-259 | Computes ClampedLevel with the best-so-far loop |
| ThinkingProofs.InRangeIff | internal/thinking/validate.go:38-165 | For well-formed support, a successful validation gives a configuration the model accepts (budget between Min and Max, listed level, auto only when dynamic, none with budget 0 or Min) if and only if the input is none of five described kinds |
| ThinkingProofs.DocumentedInRange | internal/thinking/validate.go:38-211 | For a configuration as its type documents it, the result is accepted unless it is auto on a level-only model that knows neither dynamic thinking nor medium, and then it is not |
| ThinkingProofs.CapitalAutoEscapes | internal/thinking/validate.go:74-86 | "AUTO" on a budget-only model comes out as a budget of -1 |
| ThinkingProofs.AutoBecomesUnlistedMedium | internal/thinking/validate.go:177-190 | Auto on a model that lists low and high comes out as medium, which validation itself then refuses |
| ThinkingProofs.NegativeBudgetSettlesTwice | internal/thinking/validate.go:262-310 | A budget of -5 on a model from 0 settles only the second time |
| ThinkingProofs.FixpointIff | internal/thinking/validate.go:38-165 | The configurations validation leaves unchanged, described exactly |
| ThinkingProofs.RevalidationIff | internal/thinking/validate.go:38-165 | Validating a result again, with the same model and formats, gives the same result if and only if the input is none of three described kinds; results derived from a level that escaped the strict range check included |
| ThinkingProofs.RefusedIff | internal/thinking/validate.go:67-139 | Exactly which configurations are refused, error by error |
| ThinkingProofs.ClampedBudgetIsNearest | internal/thinking/validate.go:262-310 | A budget is clamped to the nearest one in the range, unless it means off or auto |
| ThinkingProofs.BudgetsValidateMonotonically | internal/thinking/validate.go:38-165 | On a model with a range, a larger positive budget never comes out smaller |
| ThinkingProofs.AutoIsMiddle | internal/thinking/validate.go:177-211 | Auto without dynamic thinking becomes the middle of the range, rounded down, or off when that is nothing |
| ThinkingFormats.LevelOutcome | internal/thinking/validate.go:56-129 | An ordinary level on a model with levels: a listed one is taken as it is; another one is refused within a provider, the Gemini or the OpenAI family, or when it or all of the model's levels are no standard ones; otherwise it becomes a listed standard level. Formats count in any case and with blanks around them |
| ThinkingFormats.BudgetOutcome | internal/thinking/validate.go:63-139 | A budget on a model with a range is refused for its range exactly when it is out of it, is no suffix, and source and target format are known and of one family; otherwise it is cut to the range, except for -1 |
| ThinkingFormats.OffOutcome | internal/thinking/validate.go:101-165 | Thinking switched off, as a mode, a level or a budget, is off towards Claude and wherever the model allows it; elsewhere it keeps the least budget with the model's first level |
| ThinkingFormats.AutoOutcome | internal/thinking/validate.go:142-211 | Auto stays on a model that thinks dynamically; otherwise it becomes medium on a model with levels only, and elsewhere the middle of the range, or off when that is nothing |
| ThinkingFormats.LevelOnBudgetsOutcome | internal/thinking/validate.go:70-85 | A standard level on a model with budgets only becomes its budget, cut to the range, and any other name is refused |
| ThinkingFormats.UnsupportedOutcome | internal/thinking/validate.go:49-54 | A model without thinking takes no configuration but a disabled one |
| ThinkingLevels.ClampIsNearest | internal/thinking/validate.go:218-259 | A standard level is clamped to a listed one that is as near as any other listed standard level, and lower than any other as near |
| ThinkingLevels.ClampIgnoresOrder | internal/thinking/validate.go:218-259 | The order, spelling and repetition of the supported list do not matter |
| ThinkingLevels.ClampMonotone | internal/thinking/validate.go:218-259 | A higher level is never clamped to a lower one |
| ThinkingLevels.BudgetsClampMonotonically | internal/thinking/convert.go:77-97 | Through the budget thresholds and the clamp, a larger positive budget never maps to a lower level |
| ThinkingLevels.LevelRoundTrip | internal/thinking/convert.go:13-45 | Level to budget and back gives the level, for every standard level but the highest |
| ThinkingLevels.BudgetRoundTrip | internal/thinking/convert.go:77-97 | Up to 32768, a budget's level stands for at least that budget and for the same level again |
| ThinkingFormats.LevelBudgets | internal/thinking/convert.go:13-97 | The budget of each level name, in any case, and the level name of each budget, as numbers |
| ThinkingSuffix.ParsePrinted | internal/thinking/suffix.go:23-46 | Parsing name(value) gives name and value back, for any value without an opening parenthesis |
| ThinkingSuffix.PrintParsed | internal/thinking/suffix.go:23-46 | A parsed suffix prints back to the input; an input without a suffix is not of the form name(value) at all |
| ThinkingSuffix.RecognisedSuffix | internal/thinking/apply.go:211-242 | A suffix counts exactly when it is special, a level name or a number, and then means a documented configuration |
| ThinkingSuffix.NameRoundTrip | internal/thinking/apply.go:211-242 | Every plain configuration, printed as a suffix to any model name, is parsed back to that name and configuration |
| ThinkingSuffix.DigitsAreNumeric | internal/thinking/suffix.go:66-84 | Any digit string is its number when it fits 64 bits, and no suffix otherwise |
| ThinkingSuffix.LeadingZero | internal/thinking/suffix.go:55-61 | A leading zero does not change the number |
| ThinkingSuffix.MinusOne | internal/thinking/suffix.go:93-108 | -1 means auto and is no number |
| ThinkingSuffix.SuffixNeverOutOfRange | internal/thinking/validate.go:67-139 | A suffix is never refused for its budget's range |
| ThinkingSuffix.BudgetOnlyAcceptsSuffix | internal/thinking/validate.go:67-139 | A budget-only model accepts every recognised suffix, and the result is in its range |
| ThinkingSuffix.LevelOnlyAcceptsNumber | internal/thinking/validate.go:67-139 | A level-only model that lists a standard level accepts every numeric suffix, as a listed level or as thinking switched off |
| ThinkingSuffix.NormalizedHasNoKnownLevel | internal/thinking/apply.go:292-307 | No level with a known budget is left for a budget-capable provider, and normalising twice is normalising once |
| ThinkingSuffix.SuffixWins | internal/thinking/apply.go:88-200 | With a suffix on the name, the body's configuration has no say unless the model does not support thinking; an unrecognised suffix means passthrough |
| ThinkingSuffix.AppliedInRange | internal/thinking/apply.go:88-200 | Whatever is applied to a known, not user-defined model is accepted by it, with the one exception of DocumentedInRange |
| ThinkingSuffix.WithoutThinking | internal/thinking/apply.go:120-134 | On a model that is known not to think, a configuration in the body is stripped, whatever the suffix |
| ThinkingSuffix.WithoutValidation | internal/thinking/apply.go:245-307 | An unknown or user-defined model is given the configuration unvalidated, a level with a budget as that budget towards Gemini and Claude formats; nothing is refused or stripped |
| ThinkingSuffix.WithoutApplier | internal/thinking/apply.go:98-106 | Without an applier for the format the request passes untouched |
| ThinkingSuffix.BlankFormat | internal/thinking/apply.go:88-98 | A request that does not say its format is treated as being in the provider's |
| ThinkingSuffix.SuffixMeaning | internal/thinking/apply.go:211-242 | What each suffix means by its text |
| SqlSplit.SplitSQL | internal/db/sqlite.go:85-151 | The one-pass scanner computes Split, which first removes comments and marks unquoted semicolons, then cuts, trims and drops blanks |
| SqlSplit.SplitJoinIff | internal/db/sqlite.go:85-151 | Splitting the semicolon-join of statements gives them back if and only if each is trimmed, non-empty and free of unquoted semicolons and comment openers, and each but the last has balanced quotes |
| SqlSplit.SplitJoin | internal/db/sqlite.go:85-151 | The direction the splitter is for |
| SqlSplit.ProducedSplitsToItself | internal/db/sqlite.go:85-151 | For any input, every statement produced is of that form and splits to just itself |
| SqlSplit.FixedIffTidy | internal/db/sqlite.go:85-151 | The texts splitting leaves alone are exactly those |
| SqlSplit.BlockCommentIsBlank | internal/db/sqlite.go:119-131 | A block comment outside quotes and other comments counts as one blank, wherever in the script it stands, whatever it contains and whatever follows |
| SqlSplit.LineCommentIsLineEnd | internal/db/sqlite.go:133-141 | A line comment outside quotes and other comments counts as a line end, wherever in the script it stands |
| SqlSplit.InertIsOutside | internal/db/sqlite.go:85-151 | A text without unquoted semicolons and comments and with balanced quotes ends outside quotes and comments |
| SqlQuoting.QuotedIsOneStatement | internal/db/sqlite.go:94-106 | A text between single or double quotes is one statement, whatever semicolons, other quotes and comment openers it holds |
| SqlQuoting.QuotedInStatement | internal/db/sqlite.go:85-151 | The same inside a statement, between any texts with closed quotes and without active semicolons or comments, and before any rest of the script |
| SqlQuoting.SplitAtSemicolon | internal/db/sqlite.go:107-117 | Such a statement ends at the semicolon behind it, and what follows is split on its own |
| SqlQuoting.SplitJoinByReading | internal/db/sqlite.go:85-151 | SplitJoinIff by a plain left-to-right reading: a quote reaches to the next one of its kind, and outside quotes a semicolon or a comment opener is active |
| SqlQuoting.FixedByReading | internal/db/sqlite.go:85-151 | FixedIffTidy by that reading |
| SqlQuoting.CommentsByReading | internal/db/sqlite.go:119-141 | The two comment laws by that reading |
| SignatureCacheModel.CacheIsMemory | internal/cache/signature_cache.go:62-179 | Over any sequential run in time order, the cache with lazy deletion, purges and clears answers like a map from group and text hash to signature and last touch that never evicts and hits exactly when the age is at most the TTL |
| SignatureCacheModel.PurgesAreInvisible | internal/cache/signature_cache.go:75-95 | Leaving out every purge of such a run changes no other answer |
| SignatureCacheModel.AnswersAreValid | internal/cache/signature_cache.go:120-184 | Whatever a lookup answers is empty or a signature HasValidSignature accepts |
| SignatureCacheFamilies.NothingFound | internal/cache/signature_cache.go:120-150 | A lookup without a text or in an empty cache answers the literal sentinel for names that mention gemini and neither gpt nor claude, and nothing for all others |
| SignatureCacheFamilies.LookupAfterStore | internal/cache/signature_cache.go:99-163 | After a store, a lookup of the text hits for the same name and for names of the same family (gpt before claude before gemini), for three hours; every other lookup answers as without the store, and a store without a text or with fewer than fifty characters changes nothing |
| SignatureCacheFamilies.LookupExtends | internal/cache/signature_cache.go:152-160 | A hit extends the three hours |
| SignatureCacheFamilies.LookupLeavesOthers | internal/cache/signature_cache.go:120-163 | A lookup changes no answer for another text or family |
| SignatureCacheFamilies.LookupAfterClear | internal/cache/signature_cache.go:166-176 | A clear empties the family of its name, or everything, and touches no other |
| SignatureCacheFamilies.ValidIff | internal/cache/signature_cache.go:180-184 | A signature is valid when it has at least fifty characters, or is the sentinel on a gemini name |
| SignatureCacheObjects.SignatureCache.CacheSignature | internal/cache/signature_cache.go:99-116 | On bucket objects, reaches Step's state for a store |
| SignatureCacheObjects.SignatureCache.GetCachedSignature | internal/cache/signature_cache.go:120-163 | Reaches Step's state and answer for a lookup: refresh, lazy deletion, sentinel |
| SignatureCacheObjects.SignatureCache.PurgeExpiredCaches | internal/cache/signature_cache.go:75-95 | Reaches Step's state for a purge, bucket by bucket in any order |
| SignatureCacheObjects.SignatureCache.ClearSignatureCache | internal/cache/signature_cache.go:166-176 | Reaches Step's state for a clear of one group or all |
| SignatureCacheObjects.SignatureCache.GetOrCreateGroupCache | internal/cache/signature_cache.go:50-60 | Returns the group's bucket, a new empty one if there was none |
| SignatureCacheSteps.HitsAreRecent | internal/cache/signature_cache.go:50-179 | With stores, lookups and purges each taken apart into steps that interleave in any way, a hit is a signature stored for that very group and hash and touched within the TTL |
| SignatureCacheUndisturbed.UndisturbedStore | internal/cache/signature_cache.go:50-116 | Both halves of a store, with nothing in between, do what the atomic store does, and to no other group |
| SignatureCacheUndisturbed.UndisturbedRead | internal/cache/signature_cache.go:120-163 | Those of a lookup answer, touch and drop as the atomic lookup |
| SignatureCacheUndisturbed.UndisturbedVisit | internal/cache/signature_cache.go:75-95 | Those of a purge's visit drop the group's expired entries, and the group when nothing is left |
| SignatureCacheSteps.StoreCanBeLost | internal/cache/signature_cache.go:50-116 | A purge between the two halves of a store loses the signature: a concrete run |
| SignatureCacheSteps.StoreIsFound | internal/cache/signature_cache.go:99-163 | What a lookup right after a store's second half answers in any state: the signature exactly as long as the store's bucket is the indexed one, otherwise what the index holds |
| SignatureCacheStores.StoreFoundIff | internal/cache/signature_cache.go:50-163 | Over runs, whatever steps come between the two halves of a store: the lookup right after it reads the store's bucket, and then hits its signature, if and only if none of those steps dropped the group from the index, by clearing it or as the end of a purge that found it empty |
| SchedulerShares.ExactShares | internal/router/strategy.go:67-93 | Any n rounds of round-robin answers in a row, for candidate lists that agree on the healthy IDs and weights while loads change freely, name each ID exactly n times its effective weight, from any cursor |
| SchedulerShares.NearShares | internal/router/strategy.go:67-93 | Between n and n + 1 rounds, each is named between n and n + 1 times its weight |
| SchedulerShares.ExactSharesInRuns | internal/router/strategy.go:67-93 | Over n * W selections of a run for one pool of total effective weight W, the cursor moving on by one each time as Scheduler.Select has it, with any reports in between and no circuit of the pool opening, the selections of each credential grow by exactly n times its effective weight |
| SchedulerShares.NearSharesInRuns | internal/router/strategy.go:67-93 | Between n * W and (n + 1) * W selections they grow by between n and n + 1 times its weight |
| SchedulerShares.WeightOfOne | internal/router/strategy.go:73-84 | A healthy candidate whose ID no other has weighs its own weight, and 1 when that is below 1 |
| SchedulerChoices.SelectionIs | internal/router/scheduler.go:60-119 | A selection answers each error for exactly its reason, and otherwise a credential of the pool that is enabled and has a closed circuit: the first of them, the one of least load, the one at the drawn position, or by round robin the one in whose stretch of the summed weights the cursor lies |
| SchedulerChoices.FillFirstTakesFirst | internal/router/strategy.go:144-152 | Fill-first takes the first such credential of the pool |
| SchedulerProofs.BooksBalance | internal/router/scheduler.go:60-160 | In every run of Select and ReportResult steps, ActiveConns + TotalReqs of a credential equals its selections, TotalReqs its reports, TotalErrors its failed reports, and the total latency the sum of theirs |
| SchedulerProofs.NeverNegativeIff | internal/router/scheduler.go:60-160 | ActiveConns is negative if and only if more was reported than selected |
| SchedulerProofs.OpenIffTripped | internal/router/scheduler.go:135-160 | The circuit is open if and only if some prefix of the run had at least ten reports of the credential, more than half of them errors |
| SchedulerProofs.OpenIsForGood | internal/router/scheduler.go:60-160 | Once open it stays open, and the credential is never selected again, by any strategy |
| SchedulerProofs.LeastLoadBalances | internal/router/strategy.go:113-126 | A selection by least load keeps the usable credentials' open connections within one of each other |
| SchedulerSteps.UndisturbedReport | internal/router/scheduler.go:135-160 | With a report taken apart into its atomic accesses, one that nothing comes between does what the atomic report does |
| SchedulerSteps.UndisturbedSelection | internal/router/scheduler.go:60-119 | The two steps of a selection, with nothing in between, count it as the atomic one does |
| SchedulerSteps.InterleavedBalance | internal/router/scheduler.go:60-160 | However selections and reports interleave, ActiveConns + TotalReqs equals the counted selections, less the reports that are between their two counters |
| SchedulerSteps.LateSelections | internal/router/scheduler.go:60-160 | Once open a circuit stays open, and only selections that had already read its flag are still counted |
| SchedulerSteps.OpenNeedsErrors | internal/router/scheduler.go:135-160 | A circuit opens only when errors read at some point exceed half of the requests read at that or an earlier point, ten at least |
| SchedulerSteps.QuietTripIsOpen | internal/router/scheduler.go:135-160 | Conversely, however calls interleave, whenever no report of a credential is under way and its counts trip, its circuit is open |
| SchedulerSteps.CircuitBounds | internal/router/scheduler.go:135-160 | Both bounds: a quiet point at which the counts tripped opens the circuit for good, and an open circuit needs errors read at some point to outweigh requests read at that or an earlier point |
| SchedulerSerial.SerialOpenIffTripped | internal/router/scheduler.go:135-160 | When no two reports of a credential overlap, whatever selections and reports of others do, then with none of its reports under way its circuit is open if and only if its counts tripped at some point of the run |
| SchedulerSerial.SerialOpening | internal/router/scheduler.go:135-160 | In such a run an open circuit has tripped at any time, and one that tripped is open or its report is about to open it |
| SchedulerRace.RaceOpensCircuit | internal/router/scheduler.go:148-159 | Interleaved reports can open a circuit although at no point of the run more than half of the requests had failed: a run from the start state |
| Strategies.FilterHealthy | internal/router/strategy.go:40-48 | Returns the candidates whose circuit is closed, in order |
| Strategies.Expand | internal/router/strategy.go:73-84 | Builds the table in which each candidate stands as often as it weighs, at least once |
| Strategies.WeightedRoundRobin.Select | internal/router/strategy.go:67-93 | Chooses the entry at the cursor and moves the cursor by one, only when there is a healthy candidate |
| Strategies.SelectLeastLoad | internal/router/strategy.go:113-126 | Chooses the first healthy candidate with the fewest open connections |
| Strategies.SelectFillFirst | internal/router/strategy.go:144-152 | Chooses the first healthy candidate of the given order |
| Strategies.SelectRandom | internal/router/strategy.go:165-171 | Chooses the healthy candidate the random number points to |
| SchedulerObjects.Scheduler.Select | internal/router/scheduler.go:60-119 | On metrics objects: answers SelectFrom, with its four errors, counts one more open connection for the selected credential and nothing else, and moves a round-robin cursor by one exactly on a selection |
| SchedulerObjects.Scheduler.ReportResult | internal/router/scheduler.go:135-160 | On metrics objects: one connection less, one request more, the error and latency added, the circuit set when it trips |
| SchedulerObjects.Scheduler.SetStrategy | internal/router/scheduler.go:168-172 | Changes the strategy and none of the metrics |
| SchedulerObjects.Scheduler.GetOrCreateMetrics | internal/router/scheduler.go:195-215 | Returns the credential's metrics object, a new one of zeros if there was none |

## Left out

- YamlStability.MergeTwice: without its condition a second merge can change sequences of mappings, where pruning an element changes what it matches; SecondMergeCanChangeMappings is such an input and FixedIff the exact condition. YamlIdentified.MergeTwiceIdentified gives conditions on the two trees themselves.
- YamlMergeCoverage.MergeCovers: does not hold for blank keys with a value in sequence elements, for which YamlExactness.BlankKeyIsLost refutes it; YamlExactness.MergeCoversIff is the exact condition.
- RegistryQueries.PositiveCountHasServer: does not hold for a model some client lists twice, for which RepeatedModelCountsSuspendedClient refutes it; BackedIff and AlwaysBackedIff are the exact conditions.
- SignatureCacheModel.CacheIsMemory: does not cover interleaved halves of operations, for which SignatureCacheSteps.StoreCanBeLost refutes it; SignatureCacheStores.StoreFoundIff says over runs when a store is found.
- ModelRegistryObjects.ModelRegistry.GetAvailableModels: does not model the order of the list or the per-handler maps `convertModelToMap` formats.
- ModelRegistryObjects.ModelRegistry.GetAvailableModelsByProvider: does not model the order of the list or which client of the provider supplies the metadata, which the code leaves to map order.
- SchedulerProofs.OpenIffTripped: does not hold when reports interleave, for which SchedulerRace.RaceOpensCircuit refutes it; SchedulerSerial.SerialOpenIffTripped proves it whenever no two reports of the credential overlap, and SchedulerSteps.CircuitBounds gives the bounds that remain without that.
- SchedulerShares.ExactSharesInRuns: speaks of stretches in which the pool and its circuits stay as they are; a circuit that opens changes the table from that selection on.
- Nil nodes inside YAML content: the parser makes none; only the empty slots of a reordered sequence are null.
- `normalizeCollectionNodeStyles`, the legacy-key removals and comment indentation of a save: formatting and one-off clean-ups around the merge.
- YAML parsing and encoding, file reading and writing, `SaveConfigPreserveCommentsUpdateNestedScalar`.
- Non-ASCII trimming and case folding: strings are sequences of characters and the helpers know ASCII.
- Wrap-around of the round-robin cursor and of 64-bit counters and times; `Min + Max` in the mid-range budget. Only the numeric suffix models the 64-bit bound, because a value past it is refused.
- The extraction of a configuration from a request body and the provider appliers: the extracted configuration is an input of `ThinkingSuffix.Decide`, the applied configuration its output.
- Claude effort mapping (`MapToClaudeEffort`, `HasLevel`): used by appliers only.
- Registry hooks, logging, static model tables, `GetFirstAvailableModel`, `GetModelInfo`, `GetModelsForClient`, `ClientSupportsModel`: look-ups that add nothing to the index proofs.
- `AvgLatency` and `SuccessRate` of candidates: no strategy reads them.
- `CircuitBreaker` of the router's health checks, the pool manager, quota and risk engines: not wired to the modelled code or not part of this model.
- HTTP handlers, panels, login flows, token stores, database CRUD.
