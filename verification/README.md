# Verified models of xenon-utils

Dafny models of four parts of this repository whose in-place code should equal a simple
specification, and proofs that it does.  `dafny verify dfyconfig.toml` checks everything.

**Flags (`xenonc/flags.go`).**  `--a.b[2].c=v` flags build a tree of maps and slices.
`FlagTree.Put` says what one assignment does to an immutable tree; `FlagHeap.Assign` is
the code on the heap: addressable slice slots, map entries that cannot be set, slices that
grow by copying, a returned value that a map stores and a slice ignores.  It is proved
equal to `Put` of the parsed key, and the objects under the root stay an unshared tree.
About `Put` and whole command lines: which assignments are accepted and which error comes
first, what a path reads afterwards, what is left alone, first write wins, the shapes that
can arise, the grammar of keys, both forms of a flag, when a command line is refused and
with which error (`FailedExactly`), order independence, and the round trip from a tree to
flags and back.  A slice that is an element of a slice loses a write
when it would have to grow: `LosesWrite` is that case, `ReadBack` has it as one of its two
exceptions, and it is the only thing that makes the order of diverging flags matter
(`OrderDoesNotMatterExactly`).

**Gateway (`xenon-gateway`).**  Configuration and path documents, the versioned
notifications they emit, the cache that absorbs notifications in any order and any number
of times, and requests decided by several separately locked reads of the cache.  While the
configuration keeps its version, the outcome of a request is the decision on some state it
saw, except in exactly one case: its path, not its own parent, turned up between the two
lookups, and in each of those states what governs the request decides unlike the parent's
entry that was found (`ActsAtOneInstantExactly`).

The cached configuration always converges.  A cached path converges exactly when its latest
document is not deleted or each update that arrived was followed by a deletion of a higher
version (`PathConvergesExactly`), because removing an entry forgets its version.  In every
run, once the latest notifications have arrived and the paths have settled, requests are
decided like the documents say (`DecidesLikeTheDocuments`).

**Definition registry (`ModelRegistry`).**  Definitions built recursively and memoised
under shortened names: closed under reference, named like their keys, equal to a stateless
translation of the description each was loaded from.  Every kind resolves to its own
definition exactly when no kind mentioned in the descriptions finds both itself and its
shortened form taken as names (`ResolvesExactly`).

**Route merging (`SwaggerAssembler.pathByRoutes`).**  A nested loop over mutable paths and
operations, proved equal to grouping the routes by path and action and folding each group;
`SwaggerContents` says what the operations show in terms of the routes alone.

## Assumptions

- Xenon: versions of a document start at 0 and rise by one with every accepted start,
  update and deletion, also across a deletion; a notification carries the whole document;
  there is one document per path; a field that is not null overwrites in `mergeWithState`;
  a set of actions that is not empty replaces a missing or empty one.  The merge of two
  sets that are not empty is a parameter.
- `UriUtils.getParentPath` and the lower-casing of type names are parameters.
- Actions are the six of Xenon's `Service.Action`, which are also the six that the switch
  in `pathByRoutes` knows.
- A support level is its rank in declaration order; which rank means deprecated is a
  parameter.
- A new Swagger operation has an empty, non-null list of parameters.
- Go's `int` has 64 bits; strings are byte strings.  The two key patterns are ASCII
  classes, as in Go.

## Model

| member | source | states |
|---|---|---|
| FlagTree.PutSucceedsExactly | xenonc/flags.go:95-193 | an assignment is accepted iff the key parsed and each step meets nothing or the right container; otherwise the first step that does not fit is the error, before any later parse error |
| FlagTree.ReadBack | xenonc/flags.go:95-193 | after an accepted assignment its path reads the new string, except that the whole tree is unchanged iff the path already held something or a slice inside a slice had to grow |
| FlagTree.Untouched | xenonc/flags.go:123-189 | every path that is not a prefix of the assigned one reads the same: growth adds nil elements only |
| FlagTree.PutGrows | xenonc/flags.go:98-111 | the tree before an assignment is below the tree after it: strings stay, slices extend, maps gain keys |
| FlagTree.BelowReads | xenonc/flags.go:98-111 | along any path the larger tree reads something larger |
| FlagKeys.ParseExactly | xenonc/flags.go:87-192 | a key without newlines parses to a path iff it is the text of its steps: bracketed digits within int, words with an optional dot, no stop inside a word |
| FlagKeys.ParsePrintedKey | xenonc/flags.go:87-88 | parsing a printed path, decimal indices included, gives the path back |
| FlagKeys.NumberOfDecimal | xenonc/flags.go:118-121 | the index read from a printed decimal is the number printed |
| FlagKeys.ParsedStepsNameable | xenonc/flags.go:113-160 | every parsed key is a word and every index is within int, for any key text |
| FlagRun.TakesExactly | xenonc/flags.go:35-63 | Next takes a flag iff the arguments start with one of its two forms and the key has no equals sign |
| FlagRun.ArgumentFormsAgree | xenonc/flags.go:35-85 | `--k=v` and `--k v` give the same tree or the same error wherever a flag may start |
| FlagRun.RunGrows | xenonc/flags.go:65-85 | the flags still to come change nothing that is stored |
| FlagRun.FirstWriteWins | xenonc/flags.go:65-85 | the tree of an accepted front part of a command line is below the tree of the whole |
| FlagRun.FirstStringStays | xenonc/flags.go:65-85 | a path that reads a string after a front part reads it after the whole |
| FlagRun.PutBuilds | xenonc/flags.go:123-189 | one accepted assignment keeps the reachable shape: no empty container below the root, no nil map entry, no trailing nil in a slice, only words and int indices |
| FlagRun.RunBuilds | xenonc/flags.go:65-85 | every accepted command line ends in the reachable shape |
| FlagRun.RunArguments | xenonc/flags.go:65-85 | a command line of joined flags is the fold of its settings |
| FlagErrors.Characters | xenonc/flags.go:87-88 | the characters of the two patterns are the ASCII digits and word characters, by code, and each digit has its value |
| FlagErrors.NumberIsValue | xenonc/flags.go:118-121 | the index between brackets is the positional value of its digits |
| FlagErrors.FailsExactly | xenonc/flags.go:87-192 | a key without newlines does not parse, with this error, iff it spells some steps and then goes on with brackets around no digits or around 2^63 or more, or with neither brackets nor a word |
| FlagErrors.NewlineDrops | xenonc/flags.go:87-88 | what follows a newline after a word is dropped |
| FlagErrors.RefusedExactly | xenonc/flags.go:95-193 | an assignment is refused with this error iff the first step that does not fit meets a string, slice or map that the error names, or else the key does not parse with it |
| FlagErrors.AcceptedExactly | xenonc/flags.go:65-85 | Map returns this tree iff the arguments are flags in either form to their very end, accepted one after the other |
| FlagErrors.FailedExactly | xenonc/flags.go:35-85 | Map returns this error iff accepted flags are followed by an argument without the two dashes, a last flag without its value, or a flag that is refused, with that error |
| FlagErrors.FailsAfter | xenonc/flags.go:42-60 | after an accepted front part an argument that is no flag ends the run with its error, whatever follows |
| FlagOrder.StoresCommute | xenonc/flags.go:95-193 | two accepted assignments whose paths part at two keys or two indices commute if neither is lost in either order |
| FlagOrder.StaysAccepted | xenonc/flags.go:95-193 | an accepted assignment stays accepted after another whose path parts from its own |
| FlagOrder.LostAfter | xenonc/flags.go:142-154 | after another assignment a write is lost iff it was lost before, or the two part in a nested slice that was missing and the other one's index there is smaller |
| FlagOrder.CommutesUnlessForked | xenonc/flags.go:95-193 | two assignments whose paths part at two keys or two indices, each accepted, commute iff they do not part in a nested slice that the tree does not have yet, on a way on which nothing is lost |
| FlagOrder.NeverLost | xenonc/flags.go:142-154 | an assignment whose path has no two indices in a row is never lost |
| FlagOrder.OrderDoesNotMatterExactly | xenonc/flags.go:65-85 | for flags whose paths pairwise part at two keys or two indices, every permutation of the command line has the same result iff no two of them part inside a nested slice (or the root refuses them all, because they start with an index) |
| FlagOrder.RunApart | xenonc/flags.go:65-85 | flags accepted one by one are accepted in a row, and a path that parts from all of them reads the same afterwards |
| FlagOrder.NestedOrderMatters | xenonc/flags.go:142-154 | two flags into a slice inside a slice whose order decides whether the second is lost |
| FlagRoundTrip.RunPrinted | xenonc/flags.go:95-193 | running what was printed from any reachable tree into an empty place, slot or entry, builds exactly that tree |
| FlagRoundTrip.PrintsWhatIsRead | xenonc/flags.go:65-193 | exactly the strings of the tree are printed, each under the path that reads it |
| FlagRoundTrip.PrintsOnce | xenonc/flags.go:65-193 | no path is printed twice |
| FlagRoundTrip.RoundTrip | xenonc/flags.go:65-193 | Map of the flags printed from a tree, slice elements last to first and keys in any order, is the tree |
| FlagRoundTrip.MapPrintMap | xenonc/flags.go:65-193 | for any accepted command line, printing its tree and mapping the flags gives the same tree |
| FlagHeap.AssignString | xenonc/flags.go:98-111 | the empty key stores into a missing place or a nil slot and keeps anything else |
| FlagHeap.OpenSlice | xenonc/flags.go:123-136 | a nil slot or missing place gets a new slice of nils, the only Set is on an addressable slot |
| FlagHeap.GrowSlice | xenonc/flags.go:142-147 | a shorter slice becomes a new array with the same elements and nils, a longer one is kept |
| FlagHeap.SliceFor | xenonc/flags.go:123-147 | the array to index, padded; a slot keeps the old slice when it had to grow |
| FlagHeap.AssignSlot | xenonc/flags.go:149-149 | the recursive call on an element leaves the other elements alone |
| FlagHeap.AssignElement | xenonc/flags.go:149-154 | assigning below an element changes that element only, and what it returns is ignored |
| FlagHeap.AssignIndex | xenonc/flags.go:113-155 | the slice branch is Put along the index and the parsed tail, lost growth included |
| FlagHeap.OpenMap | xenonc/flags.go:162-175 | the same as OpenSlice with a new map |
| FlagHeap.AssignBelow | xenonc/flags.go:181-186 | the recursive call below a map entry leaves the other entries alone |
| FlagHeap.SetMapIndex | xenonc/flags.go:188-188 | the stored value is never nil, so a key is never deleted, and the map stays unshared |
| FlagHeap.AssignEntry | xenonc/flags.go:181-189 | looking up, assigning and writing back is Put into the entry |
| FlagHeap.AssignKey | xenonc/flags.go:157-190 | the map branch is Put along the key and the parsed tail |
| FlagHeap.AssignBracket | xenonc/flags.go:113-155 | the slice branch on the key's text; when the digits are refused the place still holds what it held |
| FlagHeap.AssignWord | xenonc/flags.go:157-192 | the map branch on the key's text; when it matches neither pattern the place still holds what it held |
| FlagHeap.Assign | xenonc/flags.go:95-193 | on any key text, the heap afterwards stands for Put of the parsed key, or the error is the same; objects stay unshared; other slots of the array are unchanged |
| FlagHeap.FlagReader.Take | xenonc/flags.go:35-63 | re-slices the arguments as Next says, with the same errors |
| FlagHeap.AssignNext | xenonc/flags.go:69-84 | one turn of the loop |
| FlagHeap.BuildMap | xenonc/flags.go:65-85 | the root is a tree of distinct new objects standing for exactly the specified tree, or the error is the same |
| GatewayCaching.ConfigState.constructor | xenon-gateway/src/main/java/com/vmware/xenon/gateway/GatewayCache.java:306-315 | the seed configuration, with version -1 |
| GatewayCaching.GatewayCache.GetSupportedActions | xenon-gateway/src/main/java/com/vmware/xenon/gateway/GatewayCache.java:85-93 | the actions of the entry, or null |
| GatewayCaching.GatewayCache.HandleConfigUpdate | xenon-gateway/src/main/java/com/vmware/xenon/gateway/GatewayCache.java:244-273 | the in-place update of the cached configuration is one absorbed notification, and what that does to each field |
| GatewayCaching.GatewayCache.HandlePathUpdate | xenon-gateway/src/main/java/com/vmware/xenon/gateway/GatewayCache.java:275-304 | the in-place update of the cached paths is one absorbed notification, and which actions it stores |
| GatewayCaching.GatewayCache.HandleConfigUpdates | xenon-gateway/src/main/java/com/vmware/xenon/gateway/GatewayCache.java:213-242 | a batch is absorbed document by document, unknown kinds ignored |
| GatewayModel.ConfigIsTaken | xenon-gateway/src/main/java/com/vmware/xenon/gateway/GatewayCache.java:244-273 | field by field: a newer notification for the followed link stores the document's fields, UNAVAILABLE for a null status and true for a null filter, a deletion the seed's; any other changes nothing |
| GatewayModel.PathIsTaken | xenon-gateway/src/main/java/com/vmware/xenon/gateway/GatewayCache.java:275-304 | a newer update stores exactly the actions the document gives, all if it gives none; a newer deletion removes the entry; other paths stay |
| GatewayConvergence.ConfigIsFirstHighest | xenon-gateway/src/main/java/com/vmware/xenon/gateway/GatewayCache.java:244-273 | after any notifications the cached configuration is that of the first to arrive with the highest version, or the seed; other links do not matter |
| GatewayConvergence.ConfigConverges | xenon-gateway/src/main/java/com/vmware/xenon/gateway/GatewayCache.java:244-273 | if equal versions carry equal content, any order and duplication ends in the projection of the highest version |
| GatewayConvergence.PathIsHighestSurvivor | xenon-gateway/src/main/java/com/vmware/xenon/gateway/GatewayCache.java:275-304 | after any notifications the entry is the highest update not followed by a higher deletion, or absent if there is none |
| GatewayConvergence.PathConvergesExactly | xenon-gateway/src/main/java/com/vmware/xenon/gateway/GatewayCache.java:275-304 | the entry is the projection of the highest version iff that is no deletion or every update was followed by a higher deletion |
| GatewayConvergence.PathConverges | xenon-gateway/src/main/java/com/vmware/xenon/gateway/GatewayCache.java:275-304 | it does when no update arrives after a deletion of a higher version |
| GatewayConvergence.LateUpdateResurrects | xenon-gateway/src/main/java/com/vmware/xenon/gateway/GatewayCache.java:275-304 | an update delivered again after its deletion brings the path back |
| GatewayRequests.GatewayService.HandleRequest | xenon-gateway/src/main/java/com/vmware/xenon/gateway/GatewayService.java:89-166 | without interference the handler's outcome is the decision on the cached state |
| GatewayRequests.RequestInFlight.Step | xenon-gateway/src/main/java/com/vmware/xenon/gateway/GatewayService.java:103-146 | each step is one call of a locked getter |
| GatewayRequests.EndsInSixReads | xenon-gateway/src/main/java/com/vmware/xenon/gateway/GatewayService.java:103-146 | a request ends after at most six reads, whatever they see |
| GatewayRequests.VersionsSeen | xenon-gateway/src/main/java/com/vmware/xenon/gateway/GatewayCache.java:244-272 | the versions a request sees never decrease, and equal versions mean equal configurations |
| GatewayRequests.DecidesOnOneState | xenon-gateway/src/main/java/com/vmware/xenon/gateway/GatewayService.java:103-147 | with updates between any two reads, if the first and last read see one version, the outcome is the decision on the state the deciding read saw, without the request's own entry if that turned up after it was looked for |
| GatewayRequests.AgreesExactly | xenon-gateway/src/main/java/com/vmware/xenon/gateway/GatewayService.java:103-147 | under one version, when the path turned up between its two lookups and is not its own parent: the outcome is the decision on the state of a read iff what the second lookup found decides like what governs there: both allow the action, or neither does, for the same reason and with the parent governing |
| GatewayRequests.ActsAtOneInstantExactly | xenon-gateway/src/main/java/com/vmware/xenon/gateway/GatewayService.java:103-147 | under one version the outcome is the decision on some state the request saw iff the path did not turn up between its two lookups, or is its own parent, or what the second lookup found decides like what governs in one of those states |
| GatewayRequests.ActsAtOneInstant | xenon-gateway/src/main/java/com/vmware/xenon/gateway/GatewayService.java:103-147 | in particular when the path did not turn up between the two lookups |
| GatewayRequests.ActsWhenMissed | xenon-gateway/src/main/java/com/vmware/xenon/gateway/GatewayService.java:109-122 | when it did, the outcome is the decision at the lookup that missed it iff the parent's entry was there at both lookups or at neither, and allowed the action at both or at neither |
| GatewayRequests.ActsWhenBothAllow | xenon-gateway/src/main/java/com/vmware/xenon/gateway/GatewayService.java:109-122 | and the decision at the lookup of the parent iff both entries allow the action there |
| GatewayRequests.MovingPathIsMissed | xenon-gateway/src/main/java/com/vmware/xenon/gateway/GatewayService.java:109-122 | without the condition on the path a request can be refused that every state it saw would have forwarded |
| GatewayRequests.TornConfigurationForwards | xenon-gateway/src/main/java/com/vmware/xenon/gateway/GatewayService.java:132-146 | without the condition on the version a request can be forwarded that no state it saw would have forwarded |
| GatewayDocuments.ConfigService.HandleStart | xenon-gateway/src/main/java/com/vmware/xenon/gateway/GatewayConfigService.java:57-92 | a start needs a body with a status, and stores what the body gives, with filterRequests true if left out |
| GatewayDocuments.ConfigService.HandleUpdate | xenon-gateway/src/main/java/com/vmware/xenon/gateway/GatewayConfigService.java:57-131 | PATCH and PUT store every field the body gives, true for filterRequests left out, and keep the rest |
| GatewayDocuments.UpdateKeeps | xenon-gateway/src/main/java/com/vmware/xenon/gateway/GatewayConfigService.java:57-131 | the same for one more update after any others |
| GatewayDocuments.FieldsAreMostRecent | xenon-gateway/src/main/java/com/vmware/xenon/gateway/GatewayConfigService.java:57-131 | after any accepted updates each field is the most recent value written to it that was not null, where leaving filterRequests out writes true |
| GatewayDocuments.StatusStays | xenon-gateway/src/main/java/com/vmware/xenon/gateway/GatewayConfigService.java:79-131 | the status of a started configuration is never null |
| GatewayDocuments.PathService.HandleStart | xenon-gateway/src/main/java/com/vmware/xenon/gateway/GatewayPathService.java:54-77 | a start needs a body with a path, and stores its path and actions |
| GatewayDocuments.PathService.HandleUpdate | xenon-gateway/src/main/java/com/vmware/xenon/gateway/GatewayPathService.java:79-125 | an update without a body or with another path is refused; accepted actions are stored if there were none or they are none, and merged otherwise |
| GatewayDocuments.PathReplaces | xenon-gateway/src/main/java/com/vmware/xenon/gateway/GatewayPathService.java:120-125 | the same for one more update after any others |
| GatewayDocuments.PathIsImmutable | xenon-gateway/src/main/java/com/vmware/xenon/gateway/GatewayPathService.java:105-125 | a document keeps the path it started with |
| GatewayDocuments.EmptySetResets | xenon-gateway/src/main/java/com/vmware/xenon/gateway/GatewayPathService.java:120-125 | an empty set wipes out all updates before it, and the cache reads it as all actions |
| GatewaySystem.RunKeeps | xenon-gateway/src/main/java/com/vmware/xenon/gateway/GatewayCache.java:213-304 | in every run the cache is the fold of the deliveries, each of which was emitted, statuses are not null, and a path's documents name it |
| GatewaySystem.ConfigStepIsLogged | xenon-gateway/src/main/java/com/vmware/xenon/gateway/GatewayConfigService.java:68-131 | a move appends to the log of a configuration exactly what it is as an accepted start, update or deletion of it |
| GatewaySystem.PathStepIsLogged | xenon-gateway/src/main/java/com/vmware/xenon/gateway/GatewayPathService.java:54-125 | the same for a path document |
| GatewaySystem.CatchesUp | xenon-gateway/src/main/java/com/vmware/xenon/gateway/GatewayCache.java:213-242 | the latest notifications can always be delivered and then have been heard |
| GatewaySystem.CachedConfigIsTrue | xenon-gateway/src/main/java/com/vmware/xenon/gateway/GatewayCache.java:244-273 | once its latest notification arrived, the cached configuration is the document with defaults |
| GatewaySystem.CachedEntryIsTrueExactly | xenon-gateway/src/main/java/com/vmware/xenon/gateway/GatewayCache.java:275-304 | once its latest notification arrived, the cached entry agrees with the document iff the path has settled |
| GatewaySystem.DecidesLikeTheDocuments | xenon-gateway/src/main/java/com/vmware/xenon/gateway/GatewayService.java:89-166 | in every run, after those deliveries, the gateway's outcome is the one computed from the documents |
| GatewaySystem.DecidesWithoutLateUpdates | xenon-gateway/src/main/java/com/vmware/xenon/gateway/GatewayService.java:89-166 | the same when no update of the path or its parent arrives after a deletion of a higher version |
| SwaggerRegistry.ModelRegistry.GetStrippedKind | swagger-adapter/src/main/java/com/vmware/xenon/swagger/ModelRegistry.java:174-193 | the loop over the prefixes chooses by the last prefix that matches |
| SwaggerRegistry.ModelRegistry.GetModel | swagger-adapter/src/main/java/com/vmware/xenon/swagger/ModelRegistry.java:66-90 | looks a kind up and loads it only if its name is unknown |
| SwaggerRegistry.ModelRegistry.Load | swagger-adapter/src/main/java/com/vmware/xenon/swagger/ModelRegistry.java:93-117 | loads the fields that are shown, in order, as the specification of load says |
| SwaggerRegistry.ModelRegistry.MakeProperty | swagger-adapter/src/main/java/com/vmware/xenon/swagger/ModelRegistry.java:119-154 | the switch over the type name, updating the registry below collections and objects |
| SwaggerRegistry.ModelRegistry.MakeRef | swagger-adapter/src/main/java/com/vmware/xenon/swagger/ModelRegistry.java:156-166 | a reference is to the name of its kind, which is registered after its fields are loaded |
| SwaggerRegistry.RunsWell | swagger-adapter/src/main/java/com/vmware/xenon/swagger/ModelRegistry.java:66-166 | after any calls every definition is the stateless translation of the description it was loaded from |
| SwaggerRegistry.DefinitionsAreClosed | swagger-adapter/src/main/java/com/vmware/xenon/swagger/ModelRegistry.java:66-166 | every reference inside a definition, through arrays too, names a definition, and definitions are named like their keys |
| SwaggerRegistry.DefinitionsShow | swagger-adapter/src/main/java/com/vmware/xenon/swagger/ModelRegistry.java:93-154 | after any calls a definition has a property for exactly the names of the fields without INFRASTRUCTURE and SERVICE_USE, and it is the one the last such field's type asks for, with its documentation |
| SwaggerRegistry.RunsExtend | swagger-adapter/src/main/java/com/vmware/xenon/swagger/ModelRegistry.java:66-193 | later calls rename no kind and change no definition |
| SwaggerRegistry.NameIsSuffix | swagger-adapter/src/main/java/com/vmware/xenon/swagger/ModelRegistry.java:174-193 | a kind's name is the kind or a suffix of it |
| SwaggerRegistry.ChosenByLast | swagger-adapter/src/main/java/com/vmware/xenon/swagger/ModelRegistry.java:180-190 | a new kind loses the last of the prefixes it has unless the rest is taken |
| SwaggerRegistry.DistinctNames | swagger-adapter/src/main/java/com/vmware/xenon/swagger/ModelRegistry.java:174-193 | if no kind is another kind behind a configured prefix, distinct kinds have distinct names, in any order of prefixes |
| SwaggerRegistry.InjectiveExactly | swagger-adapter/src/main/java/com/vmware/xenon/swagger/ModelRegistry.java:174-193 | kinds keep their names apart iff no lookup of a new kind finds both the kind and its shortened form taken by those before it |
| SwaggerRegistry.RunNames | swagger-adapter/src/main/java/com/vmware/xenon/swagger/ModelRegistry.java:66-193 | the names of a run are those of the kinds it looks up, named one after the other |
| SwaggerRegistry.AllLoaded | swagger-adapter/src/main/java/com/vmware/xenon/swagger/ModelRegistry.java:66-166 | after any calls every name that was chosen has a definition |
| SwaggerRegistry.RunsInParallel | swagger-adapter/src/main/java/com/vmware/xenon/swagger/ModelRegistry.java:66-166 | the lookups of a run are the kinds mentioned in the descriptions, walked with the set of loaded kinds alone, unless both lists collide |
| SwaggerRegistry.ResolvesExactly | swagger-adapter/src/main/java/com/vmware/xenon/swagger/ModelRegistry.java:66-193 | after any calls every kind that was named or referred to resolves to a definition loaded for that kind iff no kind mentioned in the descriptions collides with the names taken before it |
| SwaggerRegistry.PrefixFreeResolves | swagger-adapter/src/main/java/com/vmware/xenon/swagger/ModelRegistry.java:174-193 | it does when no kind is another kind behind a configured prefix |
| SwaggerRegistry.ReferencesResolve | swagger-adapter/src/main/java/com/vmware/xenon/swagger/ModelRegistry.java:156-193 | if no mention collides, every reference in a definition is to a definition loaded for its own kind |
| SwaggerRegistry.CallsResolve | swagger-adapter/src/main/java/com/vmware/xenon/swagger/ModelRegistry.java:66-90 | and so is every definition asked for by a call |
| SwaggerRegistry.OutermostDescriptionWins | swagger-adapter/src/main/java/com/vmware/xenon/swagger/ModelRegistry.java:156-163 | a kind inside its own description ends up defined by the outermost one |
| SwaggerRegistry.SharedNameResolvesWrongly | swagger-adapter/src/main/java/com/vmware/xenon/swagger/ModelRegistry.java:174-193 | two kinds that share a name, the second resolving to the first's definition |
| SwaggerRoutes.SwaggerOperation.Append | swagger-adapter/src/main/java/com/vmware/xenon/swagger/SwaggerAssembler.java:855-873 | appends the parameters, and the description behind a slash unless one of the two is blank |
| SwaggerRoutes.SplitParameters | swagger-adapter/src/main/java/com/vmware/xenon/swagger/SwaggerAssembler.java:756-782 | the loop splits the declared parameters as filtering by kind does |
| SwaggerRoutes.BuildOperation | swagger-adapter/src/main/java/com/vmware/xenon/swagger/SwaggerAssembler.java:745-814 | the operation of one route, body and default responses included |
| SwaggerRoutes.MergeOneMore | swagger-adapter/src/main/java/com/vmware/xenon/swagger/SwaggerAssembler.java:855-873 | merging a route into the operation of a group gives the operation of the longer group |
| SwaggerRoutes.ParametersInOrder | swagger-adapter/src/main/java/com/vmware/xenon/swagger/SwaggerAssembler.java:745-858 | the parameters of an operation are those of the included routes for its path and action, one route after the other, each as often as declared |
| SwaggerRoutes.ExpectedExactly | swagger-adapter/src/main/java/com/vmware/xenon/swagger/SwaggerAssembler.java:725-738 | there is an operation for a path and an action iff some route has them whose support level is not below the configured one |
| SwaggerContents.ParametersSay | swagger-adapter/src/main/java/com/vmware/xenon/swagger/SwaggerAssembler.java:756-799 | a route's parameters are one for each path or query parameter it declares, in order, and then a form of its body parameters or its request type |
| SwaggerContents.OperationSays | swagger-adapter/src/main/java/com/vmware/xenon/swagger/SwaggerAssembler.java:745-814 | tag, description, deprecation, responses (the declared ones, or Success and Error) and media types of a route's operation |
| SwaggerContents.FirstDecides | swagger-adapter/src/main/java/com/vmware/xenon/swagger/SwaggerAssembler.java:855-873 | all of a merged operation but parameters and description is that of the first documented route |
| SwaggerContents.DescriptionSays | swagger-adapter/src/main/java/com/vmware/xenon/swagger/SwaggerAssembler.java:855-873 | its description joins, with slashes between, those of its routes that are not blank, or is the first one's |
| SwaggerContents.BlankExactly | swagger-adapter/src/main/java/com/vmware/xenon/swagger/SwaggerAssembler.java:860-865 | blank means null or nothing but the white space of ASCII |
| SwaggerRoutes.PathFor | swagger-adapter/src/main/java/com/vmware/xenon/swagger/SwaggerAssembler.java:725-733 | gets or creates the path of a route, before the route may be skipped |
| SwaggerRoutes.AppendTo | swagger-adapter/src/main/java/com/vmware/xenon/swagger/SwaggerAssembler.java:816-839 | appending in place changes the one operation of that path and action |
| SwaggerRoutes.StoreIn | swagger-adapter/src/main/java/com/vmware/xenon/swagger/SwaggerAssembler.java:816-839 | the first operation for an action is stored as it is |
| SwaggerRoutes.AddRoute | swagger-adapter/src/main/java/com/vmware/xenon/swagger/SwaggerAssembler.java:725-839 | one turn of the inner loop extends the specification by one route |
| SwaggerRoutes.PathByRoutes | swagger-adapter/src/main/java/com/vmware/xenon/swagger/SwaggerAssembler.java:720-842 | the result has a path for every route's path, filtered or not, and an operation exactly where some route there is documented, which is the fold of those routes; no object is shared |

## Left out

- `xenonc/flags.go`: a slice index too large to allocate (including the largest int, whose successor overflows) ends the program in Go; here memory is unlimited.
- `xenonc/flags.go`: an argument of fewer than two bytes where a flag is expected also ends the program; here it is the error SliceOutOfRange.
- `xenonc/main.go`: HTTP, environment, files, templates, YAML and JSON, DNS and UUIDs.
- Gateway: subscription set-up, logging, timing, `getGatewayState` cloning, requests to the gateway's own endpoint, forwarding after the decision, copying of responses, `createNewUri`, start and stop of hosts.
- `GatewayDocuments.PathService.HandleUpdate`: an accepted body without actions is excluded, because the handler crashes on it; `GatewaySystem.Next` leaves the document as it is.
- Xenon itself: replication, queries, the merge of two sets of actions that are not empty.
- Swagger: examples on properties, classes looked up by reflection (a response keeps the type it is built from), JSON and YAML output, factory and utility paths, the order of keys in maps, type names outside the switch of `makeProperty`, white space outside ASCII in `isBlank`, and the registry calls made while routes are merged.
- `SwaggerRegistry.ModelRegistry.GetModel`: both overloads are one method, taking the kind and the fields; prefixes must have been set, as the code demands.
- Immutable values stand for Java and Go objects that are not changed after they were stored: notifications, definitions, responses and parameters.
