# Verified protocol and decision cores of ResonantOS

This Dafny project models the parts of ResonantOS whose correctness depends on an argument over
whole runs, searches or arithmetic, and proves what they keep. Each module follows one part of the
program; classes and loops stand where the program updates state in place, functions where it
computes values.

| module | part of the program |
|---|---|
| `EventStream` | the incremental reader of server-sent events, on any cut of the text into pieces |
| `HarnessClient` | the client's projection of the host registry under late, repeated and reordered answers, reboots of the host, and concurrent event readers |
| `CapabilityBootstrap` | the single-flight token bootstrap with its compare-before-clear rule and the one retry |
| `ProviderRoute`, `StrategyRoute`, `RouteKeys` | the search for a provider and a runtime node, cost postures and preferred models around it, and the keys of offered routes |
| `ComputeFabric`, `FabricRuns`, `ArtifactPath` | validation and first-fit placement of jobs, the life of nodes and the audit log over any run, containment of artifact paths |
| `Checksum`, `ContextMemory` | the 32-bit transcript checksum, compaction, and prompts built from a compact state |
| `StateMigration`, `HostRebase` | merging saved state onto shipped defaults, legacy migrations, and the host's acknowledgements imposed at every start |
| `RunningWork` | leases of add-on work in flight |
| `ThemeTokens` | colour conversion and brightness scaling, over the reals |
| `Options`, `CodeUnits` | optional values; strings as sequences of 16-bit code units |

Asynchronous code is modelled as steps: what runs between two awaits is one step, and theorems are
about every sequence of steps. Network answers, the clock, decoded JSON and secret detection are
parameters, so the theorems hold whatever they are. A class method is tied to a function of the old
state, and the theorems about runs are about that function.

## What the proofs found

- **Frames near the size limit.** The part of a boundary that was already received counts toward the
  residual limit (`src/core/web-transport.ts:285`). A frame is tight when it is within the limit and its
  boundary, but for the last code unit, reaches past it. Every reader gives the same on every cut of a text
  exactly when no tight frame comes before the first frame over the limit; for one reader's verdicts the
  exact condition is `Fits`. A text without frames of 262142 to 262144 code units always qualifies.
- **The bridge can write frames the reader rejects.** The bridge bounds what it buffers, about a megabyte
  (`browser-first/host/bridge-server.mjs:365-366`), not the length of a frame, and JSON takes six code units
  for a control character, of which an event may hold 65,536 (`src/core/web-transport.ts:220-222`). What the
  bridge writes is read back, however it is cut, exactly when every frame is shorter than 262144 code units.
- **Events can repeat when an owner comes back.** Sequence cursors are cleared at every change of owner.
  Whatever frames arrive, a session's numbers never repeat exactly when the host does not give the slot
  back, in the same boot and generation, to an owner that a session can hold under.
- **Namesakes revive a revoked node.** The node list is not checked for distinct ids, and a transition
  writes the first node with an id over all of its namesakes. A revoked node stays revoked in every run
  exactly when the first node with its id is revoked.
- **An empty target is kept.** `job.targetNodeId ?? selected` keeps `""`, while validation treats it as
  no target. The recorded job then names no node that suits it, unless a node without an id does.
- **A preserved count of zero preserves everything,** because `slice(-0)` is the whole list. No more than the
  count is kept exactly when it is positive or the thread is empty.
- **Ids with colons can share a route key.** Each key starts with a head made of the provider and the node.
  Whatever models are listed, looking up an option's key returns its own route exactly when no head begins
  the head of a node that makes different options. Distinct node ids and ids without colons suffice. With
  nodes `n` and `n::a`, looking up the second one's option returns the first one's route.
- **For a strategy, the fallback and the policy's list decide nothing.** A strategy's search is restricted to its
  own providers and those that serve the preferred model, and all of these are preferred already, so the primary,
  the fallback and the policy's list add no provider and move none (`StrategyOrder`).
- **The artifact check on remaining `..` parts never refuses,** since normalised parts contain none.
- **A shipped engineer agent would not settle.** Agents settle after one normalisation, whatever was saved,
  exactly when the engineer agent is not shipped beside the setup agent. It no longer is.
- **A comment and its code differ.** The comment on the neutral levels speaks of a clamp to 2..98
  (`apps/augmentor/extension/theme-tokens.js:95`); the code clamps to 2..100, and the model follows it.

## Model

| member | source | states |
|---|---|---|
| `EventStream.JudgeFrame` | src/core/web-transport.ts:269-283 | the line loop over a frame yields exactly its verdict: oversize and undecodable frames are invalid, frames without data are skipped, a close frame ends the stream with its code |
| `EventStream.LinesOfWritten` | src/core/web-transport.ts:272 | splitting written lines gives them back, whichever of the two line breaks each ends in |
| `EventStream.JoinSplits` | src/core/web-transport.ts:278 | the joined data values are told apart again by splitting |
| `EventStream.FieldsRead` | src/core/web-transport.ts:269-283 | what a frame written from fields means, by its data values, its last event name and the codec alone: skipped without data, invalid when undecodable, an event, or the end with the code the close payload carries |
| `CodeUnits.TrimIs` | src/core/web-transport.ts:274 | trimming removes exactly the white space at both ends |
| `EventStream.ReadEvents` | src/core/web-transport.ts:259-290 | the nested loops over pieces yield the events and the ending of the recursive reader, on every list of pieces |
| `EventStream.FirstFrame` | src/core/web-transport.ts:266-268 | a cut loses nothing: frame, boundary and rest make up the buffer |
| `EventStream.LeftmostExtends` | src/core/web-transport.ts:266 | the leftmost boundary of what was read is the leftmost boundary of the whole text, of the same length |
| `EventStream.PumpExtends` | src/core/web-transport.ts:266-284 | draining a longer buffer first drains the shorter one and continues with its residue |
| `EventStream.SettleIsWhole` | src/core/web-transport.ts:261-290 | from any drained buffer, reading on in pieces ends like the text in one piece, if the text fits |
| `EventStream.BadCut` | src/core/web-transport.ts:285 | a text that does not fit has a cut into two pieces that changes the outcome |
| `EventStream.ChunkIndependence` | src/core/web-transport.ts:259-290 | every cut of a text gives the events and the ending of the text in one piece if and only if the text fits |
| `EventStream.DoomedIsInvalid` | src/core/web-transport.ts:266-288 | a text yields nothing and is invalid exactly when its frames, read by their verdicts, lead there: the condition `Fits` puts on what follows a tight frame |
| `EventStream.EveryReaderExactly` | src/core/web-transport.ts:285 | every reader, whatever it makes of frames, gives the same on every cut of a text if and only if no tight frame comes before the first one over the limit |
| `EventStream.FarFromLimitFits` | src/core/web-transport.ts:285 | a text without frames of 262142 to 262144 code units fits |
| `EventStream.NearLimitCounterexample` | src/core/web-transport.ts:285 | a comment frame of 262142 code units is skipped in one piece and rejected when its boundary is cut |
| `EventStream.BridgeStreamWhole` | browser-first/host/bridge-server.mjs:382-408 | what the bridge writes reads back in one piece as its events and its close code, and fits, if and only if every frame is shorter than the limit |
| `EventStream.BridgeRoundTrip` | browser-first/host/bridge-server.mjs:382-408 | however the network cuts the bridge's stream, the reader yields exactly the events written and ends as the bridge ended it, if and only if every frame is shorter than the limit |
| `HarnessClient.HarnessClient.Publish` | src/core/harness-client.ts:37-42 | the whole new client state: boot version raised on a new boot, cursors dropped on a new owner |
| `HarnessClient.HarnessClient.ApplySnapshot` | src/core/harness-client.ts:44-49 | a snapshot is taken exactly when it is acceptable, of this boot and newer, and nothing changes otherwise |
| `HarnessClient.HarnessClient.BeginCommand` | src/core/harness-client.ts:51 | the version a command carries across its await is the one a step of a run records |
| `HarnessClient.HarnessClient.CompleteCommand` | src/core/harness-client.ts:55-61 | which answers establish a boot, which update it, and which are discarded |
| `HarnessClient.PendingTracked` | src/core/harness-client.ts:50-61 | a command in flight is known by the boot version and the publications at its start, until it is answered or rejected |
| `HarnessClient.HarnessClient.ReadFrame` | src/core/harness-client.ts:89-97 | when a frame is yielded, skipped, or ends the reader, and the cursor that remains |
| `HarnessClient.RunInvariant` | src/core/harness-client.ts:33-65 | over every run: each publication is justified, and receipts match their owner with rising cursors |
| `HarnessClient.FreshFramesYielded` | src/core/harness-client.ts:87-98 | over every run, from the owner last published and the receipts alone: a reader ends exactly when its session no longer holds the slot, and a frame is yielded, adding one receipt, exactly when its provenance is the session, its number is safe, positive and above every one yielded to that session under this owner |
| `HarnessClient.AtMostOnce` | src/core/harness-client.ts:87-98 | under one owner the sequence numbers yielded for a session strictly increase over all readers, and each frame matches the owner held at that moment |
| `HarnessClient.AtMostOnceForever` | src/core/harness-client.ts:87-98 | without reuse of an owner a session can hold under, they increase over the whole run |
| `HarnessClient.QuietRunSame` | src/core/harness-client.ts:87-98 | frames that arrive change neither the projection, the boot version, the commands in flight nor the owners |
| `HarnessClient.ReuseRepeats` | src/core/harness-client.ts:39 | for every history in which such an owner comes back, frames can arrive so that one is yielded twice |
| `HarnessClient.NeverRepeatsExactly` | src/core/harness-client.ts:37-98 | for every history of commands, answers and snapshots: whatever frames arrive, and whenever, no session's numbers repeat, if and only if no owner a session can hold under comes back |
| `HarnessClient.ReuseRepeatsFrame` | src/core/harness-client.ts:39 | for any session and frame, a run of five steps yields the frame twice |
| `HarnessClient.EpochVersionCounts` | src/core/harness-client.ts:38 | the boot version is the number of boot changes, the first included |
| `HarnessClient.StaleResponseKeepsBoot` | src/core/harness-client.ts:51-61 | an answer to a request issued before the latest boot change cannot change the boot |
| `HarnessClient.BootChangesByRegistry` | src/core/harness-client.ts:55-61 | every later boot change answers a registry request issued since the change before it |
| `HarnessClient.RevisionsRise` | src/core/harness-client.ts:44-48 | within one boot the published revisions strictly increase |
| `HarnessClient.NewestWins` | src/core/harness-client.ts:44-65 | after any answers of one boot, the projection is a delivered or initial snapshot of the largest revision |
| `HarnessClient.Confluence` | src/core/harness-client.ts:44-65 | order, repetition and delay of answers do not matter within one boot, given one snapshot per revision |
| `CapabilityBootstrap.BootstrapState.EnsureCapabilityTokens` | src/core/web-transport.ts:61-100 | which promise a caller gets, and the slot and promises afterwards |
| `CapabilityBootstrap.BootstrapState.SettleBootstrap` | src/core/web-transport.ts:71-97 | a failed bootstrap clears the slot only if the slot still holds it |
| `CapabilityBootstrap.BootstrapState.DropBootstrap` | src/core/web-transport.ts:168-170 | a denied route clears the slot only if it still holds the promise the route was sent with |
| `CapabilityBootstrap.SameKeyExactly` | src/core/web-transport.ts:58-63 | configurations share a bootstrap exactly when they hold the same non-empty secrets for the same address |
| `CapabilityBootstrap.SettlementOutcome` | src/core/web-transport.ts:84-97 | what a bootstrap's success and failure leave of the promise and of the slot |
| `CapabilityBootstrap.RunInvariant` | src/core/web-transport.ts:56-100 | over every interleaving: promises are accounted for, and a cached one is live |
| `CapabilityBootstrap.BootstrapsBounded` | src/core/web-transport.ts:56-100 | bootstrap requests number at most one plus the clears and key replacements; a settled cached promise has succeeded |
| `CapabilityBootstrap.AtMostTwoFetches` | src/core/web-transport.ts:132-192 | every invocation sends its route at most twice |
| `CapabilityBootstrap.DeniedIsRetried` | src/core/web-transport.ts:165-172 | in every run, a route denied for its capability is sent again once, with the configuration of that moment and with cached tokens of its key that are not the denied ones; a second denial is final |
| `CapabilityBootstrap.ForbiddenAsksAnew` | src/core/web-transport.ts:173-178 | in every run, a route the host forbids for the first time waits for tokens that are not the ones it was sent with |
| `CapabilityBootstrap.RetriedWithAnotherToken` | src/core/web-transport.ts:178-182 | it is sent again if and only if they bring another token for its capability |
| `CapabilityBootstrap.SentWithToken` | src/core/web-transport.ts:145-157 | a route is sent with the token that its settled tokens hold for its capability, and with none otherwise |
| `CapabilityBootstrap.InFlightBounded` | src/core/web-transport.ts:61-100 | bootstraps under way number at most one plus the key replacements; with one key they are the cached one |
| `CapabilityBootstrap.DroppedByOwnerOnly` | src/core/web-transport.ts:93-95 | a promise leaves the slot only by its own failure, a denial of a route sent with it, or another key |
| `CapabilityBootstrap.LivePromiseShared` | src/core/web-transport.ts:66-68 | as long as it stays cached, every invocation with its key awaits that very promise |
| `ProviderRoute.FirstPermittedDistinct` | src/core/policies.ts:212-222 | the provider order holds each permitted id once |
| `ProviderRoute.VisitOrder` | src/core/policies.ts:212-222 | providers are visited in the order preferred, primary, fallback, policy, each list in its own order |
| `ProviderRoute.PolicyIs` | src/core/policies.ts:202-204 | the policy is the first of the id asked for, or else the first of all |
| `ProviderRoute.PermissionsAre` | src/core/policies.ts:205-208 | tiers and recovery are as the call says, or else as the policy, or else as the opt-in |
| `ProviderRoute.AdapterIsFirst` | src/core/policies.ts:183-193 | the adapter is the first that supports provider type, node kind and authentication method |
| `ProviderRoute.ModelRuns` | src/core/policies.ts:257-264 | the model is the first one asked for that the node supports; when none was asked for, the provider's primary, its fallback, or the node's first |
| `ProviderRoute.RankOrder` | src/core/policies.ts:161-181 | of two values the one named first ranks first, named ones before the others, which tie |
| `ProviderRoute.InsertInOrder` | src/core/policies.ts:242-248 | insertion keeps the order by runtime rank, locality rank and position, and the multiset |
| `ProviderRoute.SortedCandidatesAre` | src/core/policies.ts:233-248 | the sorted candidates are exactly the nodes that pass the filters, in order |
| `ProviderRoute.FirstAdmissible` | src/core/policies.ts:250-265 | the inner loop stops at the least admissible node of a provider, or there is none |
| `ProviderRoute.LeastUnique` | src/core/policies.ts:195-314 | at most one pair is least, so the answer is determined |
| `ProviderRoute.ResolveProviderRoute` | src/core/policies.ts:195-314 | the answer is the least admissible pair with its fallback flag and reason; recovery or no route is answered exactly when no pair is admissible |
| `ProviderRoute.AdmissibleIsInPolicy` | src/core/policies.ts:224-282 | every route that can be answered is in policy, condition by condition, and what the answer says of provider, node, adapter, model, tier and health |
| `ProviderRoute.ViableExactly` | src/core/policies.ts:224-282 | a route is found if and only if some provider of the search has one in policy |
| `ProviderRoute.LastResortIs` | src/core/policies.ts:284-313 | without one, the answer is the first deployable node of the first prepared recovery action, exactly when recovery is allowed and both exist |
| `StrategyRoute.BucketsPartition` | src/core/provider-service.ts:246-264 | the filtered buckets of a posture make up the routes |
| `StrategyRoute.ReorderIsStableSort` | src/core/provider-service.ts:238-267 | reordering is a permutation, in order of the posture's priority, that keeps the order within each priority |
| `StrategyRoute.StrategyVisits` | src/core/provider-service.ts:290-311 | the search visits exactly the strategy's providers and those that can serve the preferred model |
| `StrategyRoute.RoutesAre` | src/core/provider-service.ts:219-231 | the routes are the primary and those of the first chain with the strategy's id, the last resort included |
| `StrategyRoute.ExpandedInOrder` | src/core/provider-service.ts:219-231 | the primary comes first, then the routes of the chain in their order, then its last resort |
| `StrategyRoute.StrategyOrder` | src/core/provider-service.ts:290-301 | the search visits the providers serving the preferred model and then those of the routes, each once; the primary, the fallback and the policy add none |
| `StrategyRoute.VisitedInTurn` | src/core/provider-service.ts:285-301 | each provider that can serve the preferred model is visited before each one that cannot; the former in the order of the registry, the latter in the order of the routes |
| `StrategyRoute.ServingProviderChosen` | src/core/provider-service.ts:285-301 | when some provider can serve the preferred model in policy, the chosen one can serve it |
| `StrategyRoute.PreferredRuns` | src/core/provider-service.ts:281-305 | a node runs the preferred model if it supports it and the strategy has it, and otherwise the first of the routes' models that it supports |
| `StrategyRoute.NodesInTurn` | src/core/provider-service.ts:302 | of a provider's nodes the one the routes name first comes first, then the one whose locality the request names first, then the one that stands first |
| `StrategyRoute.WidenedViable` | src/core/policies.ts:224-282 | more models and more providers never lose a route |
| `StrategyRoute.PostureFailOpen` | src/core/provider-service.ts:233-267 | whether an in-policy route exists is the same under every posture |
| `StrategyRoute.PreferredModelKeepsViable` | src/core/provider-service.ts:282-305 | asking for a model never turns a found route into none |
| `StrategyRoute.UnknownModelIgnored` | src/core/provider-service.ts:282-284 | a model that is none of the strategy's changes nothing |
| `StrategyRoute.ResolveStrategyRoute` | src/core/provider-service.ts:269-311 | the route is the least admissible pair for the strategy; its model is the preferred one if its node supports it and else the first of the routes' that does; its provider can serve the preferred model if any in policy can; recovery only without a route and without the hard stop; one found by default is found under any posture and preference |
| `RouteKeys.HeadsShareKey` | src/core/model-strategy.ts:28-29 | two heads share a key for some models if and only if one begins the other |
| `RouteKeys.KeyInjective` | src/core/model-strategy.ts:28-29 | without colons in provider ids and node names, two routes share a key if and only if they have the same provider, node name and model; a route without a node is named `provider` |
| `RouteKeys.PosturesAre` | src/core/model-strategy.ts:31-51 | when an option's posture is each of the five: the recovery node, what the user runs, and how the rest is paid |
| `RouteKeys.OptionsAreOffers` | src/core/model-strategy.ts:69-95 | the options are exactly those of a reachable node with a known provider, one for each model that the node or the provider lists |
| `RouteKeys.OptionsDistinct` | src/core/model-strategy.ts:69-95 | with clear heads, options that share a key are the same |
| `RouteKeys.KeyRoundTrip` | src/core/model-strategy.ts:97-111 | with clear heads, looking up an option's key returns exactly its route |
| `RouteKeys.RoundTripsExactly` | src/core/model-strategy.ts:97-111 | every option's key finds its own route if and only if no two options share a key |
| `RouteKeys.UnclearHeads` | src/core/model-strategy.ts:69-111 | where one head begins another, some model lists make two different options share a key |
| `RouteKeys.KeysFaithfulExactly` | src/core/model-strategy.ts:69-111 | for all model lists every option's key finds its own route, if and only if the heads are clear |
| `RouteKeys.PlainIdsAreClear` | src/core/model-strategy.ts:28-29 | distinct node ids and ids without colons make the heads clear |
| `RouteKeys.UnknownKey` | src/core/model-strategy.ts:101-104 | a key is found exactly when it belongs to an option |
| `RouteKeys.ColonsCollide` | src/core/model-strategy.ts:97-111 | a state whose two options share a key, and looking up the second returns the first one's route |
| `ArtifactPath.NormalizePathParts` | src/core/compute-fabric.ts:470-483 | the stack loop is the walk over the segments |
| `ArtifactPath.SplitIs` | src/core/compute-fabric.ts:472 | the segments hold no slash and make up the text again when joined by slashes |
| `ArtifactPath.AbsoluteIs` | src/core/compute-fabric.ts:485-486 | a path is absolute if and only if it begins with a slash, or with an ASCII letter, a colon and either slash |
| `ArtifactPath.SplitJoin` | src/core/compute-fabric.ts:472 | the segments of a join are the segments of both |
| `ArtifactPath.NormalizeJoin` | src/core/compute-fabric.ts:470-483 | normalising a join walks the second path from where the first leads |
| `ArtifactPath.ParentUndoes` | src/core/compute-fabric.ts:473-480 | going into a directory and out of it again leads nowhere, anywhere in a path |
| `ArtifactPath.NothingAboveRoot` | src/core/compute-fabric.ts:476-478 | a `..` at the root is dropped |
| `ArtifactPath.WalkOnlyAdds` | src/core/compute-fabric.ts:473-480 | segments without `..` only add parts, the same everywhere |
| `ArtifactPath.WalkClean` | src/core/compute-fabric.ts:473-480 | no normalised part is empty, `.` or `..` |
| `ArtifactPath.ContainmentSound` | src/core/compute-fabric.ts:435-449 | an accepted path leads inside the root: the root's parts are a prefix of where it leads |
| `ArtifactPath.ContainmentComplete` | src/core/compute-fabric.ts:435-449 | exactly which paths with parts are refused |
| `ComputeFabric.ValidateComputeNode` | src/core/compute-fabric.ts:166-192 | valid exactly when no error was pushed, which is when the node meets every rule; when the warning appears |
| `ComputeFabric.NodeValidExactly` | src/core/compute-fabric.ts:166-192 | a node is valid if and only if it breaks none of six rules, each stated under the code of its error |
| `ComputeFabric.ValidateComputeJob` | src/core/compute-fabric.ts:194-295 | valid exactly when declaration, placement and limits are acceptable |
| `ComputeFabric.CheckDeclaration` | src/core/compute-fabric.ts:204-238 | the first group of checks pushes an error exactly on an unregistered target or an ill-formed declaration |
| `ComputeFabric.DeclarationExactly` | src/core/compute-fabric.ts:204-238 | a declaration is acceptable if and only if it breaks none of ten rules, each stated under the code of its error |
| `ComputeFabric.CheckPlacement` | src/core/compute-fabric.ts:239-262 | the placement checks add an error exactly when the target does not suit, or none suits, or an add-on may not choose |
| `ComputeFabric.CheckLimits` | src/core/compute-fabric.ts:263-292 | the remaining checks add an error exactly when a role, secret or limit rule is broken |
| `ComputeFabric.LimitsExactly` | src/core/compute-fabric.ts:263-292 | roles, secrets and limits are acceptable if and only if none of nine rules is broken, each stated under the code of its error |
| `ComputeFabric.EvaluateComputeNode` | src/core/compute-fabric.ts:584-626 | a node suits exactly when it satisfies every constraint, which is when no reason was pushed |
| `ComputeFabric.SatisfiesExactly` | src/core/compute-fabric.ts:584-626 | a node satisfies a job if and only if none of nine mismatches applies, each stated under its reason |
| `ComputeFabric.PlacementExactly` | src/core/compute-fabric.ts:201-262 | placement is acceptable if and only if the first node of the named id may be chosen and suits an executable job, or, without a named one, some node does |
| `ComputeFabric.SelectNodeIsFirstFit` | src/core/compute-fabric.ts:297-301 | the selected node is the first that satisfies the job, and none is selected only when none does |
| `FabricRuns.RefusedOrRecorded` | src/core/compute-fabric.ts:303-433 | a refused operation changes nothing; an accepted one appends exactly its record |
| `FabricRuns.LifecycleOutcome` | src/core/compute-fabric.ts:348-421 | what an accepted enrolment or transition leaves: a valid node in the new state, never from an untrusted or revoked one by enrolment |
| `FabricRuns.EnrolmentAccepted` | src/core/compute-fabric.ts:348-398 | an enrolment is accepted if and only if the first node of the id is named, trusted, not revoked and reachable, an actor and a fingerprint are given, and its roles are known and, but for three, probed |
| `FabricRuns.TransitionAccepted` | src/core/compute-fabric.ts:491-527 | a quarantine or revocation is accepted if and only if actor and reason are given and the first node of the id is well described, and not revoked if it is to be quarantined |
| `FabricRuns.TransitionOutcome` | src/core/compute-fabric.ts:516-523 | a transition changes state, health, date and notes of its node and nothing else |
| `FabricRuns.RecordOutcome` | src/core/compute-fabric.ts:550-569 | the record names the node or job, the event and the time |
| `FabricRuns.NodeStep` | src/core/compute-fabric.ts:571-582 | an operation keeps every node or puts the new one in place of all nodes with its id |
| `FabricRuns.RevokedForever` | src/core/compute-fabric.ts:491-548 | in every run the node an id finds stays revoked |
| `FabricRuns.RevokedAtExactly` | src/core/compute-fabric.ts:571-582 | in a fabric of valid nodes a revoked node stays revoked in every run if and only if the first node with its id is revoked |
| `FabricRuns.NamesakeRevived` | src/core/compute-fabric.ts:571-582 | otherwise one quarantine un-revokes it |
| `FabricRuns.RevokedNodeForever` | src/core/compute-fabric.ts:491-548 | with distinct ids a revoked node is revoked in every run |
| `FabricRuns.NodesSoundForever` | src/core/compute-fabric.ts:348-433 | no run enrols an untrusted node or leaves an invalid one |
| `FabricRuns.UntrustedNeverEnrolled` | src/core/compute-fabric.ts:368-370 | from any fabric, no operation turns an untrusted node into an enrolled one |
| `FabricRuns.EnrolmentOutcome` | src/core/compute-fabric.ts:372-398 | an accepted enrolment records the fingerprint, takes every field and reading the input gives and keeps the others, and takes a high-risk role only with a passed probe |
| `FabricRuns.HighRiskIsProbed` | src/core/compute-fabric.ts:348-433 | in every run an enrolled node with a high-risk role is as it was at the start, or was enrolled by the run after a passed probe |
| `FabricRuns.LogAppendOnly` | src/core/compute-fabric.ts:571-582 | the log only grows, by one record for each accepted operation |
| `FabricRuns.AuditIdsDistinct` | src/core/compute-fabric.ts:550-569 | from an empty log on, all record ids of a run differ |
| `FabricRuns.JobsDistinctForever` | src/core/compute-fabric.ts:341 | job ids stay unique over every run |
| `FabricRuns.SubmissionRecorded` | src/core/compute-fabric.ts:313-345 | a submission replaces the job of its id and keeps every other, and a blocked, failed or cancelled job is queued again |
| `FabricRuns.SubmissionAccepted` | src/core/compute-fabric.ts:194-312 | a submission is accepted if and only if the job is well formed and within limits, and the first node of the id it names may be chosen and suits, or, when it names none, some node suits |
| `FabricRuns.PlacementCorrect` | src/core/compute-fabric.ts:303-346 | an executable job is recorded with the first suitable node, or with the suitable node it named |
| `FabricRuns.WellPlacedExactly` | src/core/compute-fabric.ts:315 | the recorded target is a registered suitable node if and only if the target was not empty, or a suitable node has an empty id |
| `FabricRuns.WellPlacedInValidFabric` | src/core/compute-fabric.ts:315 | among valid nodes, if and only if the target was not empty |
| `Checksum.ChecksumOf` | src/core/context-memory.ts:235-242 | the signed 32-bit loop computes the unsigned fold modulo 2^32 in hexadecimal |
| `Checksum.XorInjective` | src/core/context-memory.ts:238 | exclusive or with the same word can be undone |
| `Checksum.PrimeInjective` | src/core/context-memory.ts:239 | multiplying by the prime is injective on words |
| `Checksum.MixInjective` | src/core/context-memory.ts:238-239 | a step is injective in the hash and in the code unit |
| `Checksum.FoldSensitive` | src/core/context-memory.ts:235-242 | changing one code unit changes the hash, from any start, for any length |
| `Checksum.HexInjective` | src/core/context-memory.ts:241 | the hexadecimal text determines the number |
| `Checksum.ChecksumSensitive` | src/core/context-memory.ts:235-242 | changing exactly one code unit of a text of any length changes its checksum |
| `Checksum.ChecksumSample` | src/core/context-memory.ts:235-242 | the published FNV-1a values of the empty text and of the letter a come out, with the prefix |
| `ContextMemory.EmptyWellIdentified` | src/core/chat.ts:106-121 | a new chat starts with every message id free |
| `ContextMemory.SeededWellIdentified` | src/core/defaults.ts:712-732 | the shipped threads start with ids that no appended message will take |
| `ContextMemory.AppendKeepsIdentified` | src/core/chat.ts:10-57 | appending keeps message ids distinct and future ids free |
| `ContextMemory.EditKeepsIdentified` | src/core/chat.ts:95-104 | so does updating a message |
| `ContextMemory.AppendOutcome` | src/core/chat.ts:39-56 | appending adds one message, numbered by its place, with the role, content and status given |
| `ContextMemory.EditOutcome` | src/core/chat.ts:95-104 | updating a message changes its content and status, and no other message |
| `ContextMemory.CompactionCovers` | src/core/context-memory.ts:388-398 | a compact state covers the thread from its first message to its last and preserves the last ones, in order |
| `ContextMemory.DigestOfParts` | src/core/context-memory.ts:393 | the digest of a conversation is that of its parts, line by line |
| `ContextMemory.PromptHolds` | src/core/context-memory.ts:515-548 | a prompt is empty or begins with a user's message, and holds in order exactly the messages that are not blank, no failed or interrupted answer, and preserved or later than the compaction, from the first such user's message on |
| `ContextMemory.RetainedIsSuffix` | src/core/context-memory.ts:537-547 | being preserved or later than the compaction means standing at or after where the preserved messages begin |
| `ContextMemory.CompactedPrompt` | src/core/context-memory.ts:515-548 | the prompt from a compact state is the plain prompt of the thread cut where its preserved messages begin, whatever was appended or edited since |
| `ContextMemory.CountOfCut` | src/core/context-memory.ts:392 | a positive count keeps the last so many messages, a count of zero all of them; no more than the count are kept if and only if it is positive or there are none |
| `ContextMemory.StartConsistent` | src/core/defaults.ts:734-762 | a chat of shipped or empty threads without compact states is where the theorems about runs may start |
| `ContextMemory.ConsistentForever` | src/core/context-memory.ts:441-469 | every run of creations, appends, edits and compactions keeps each compact state tied to a prefix of its thread |
| `ContextMemory.ThreadsOutcome` | src/core/chat.ts:12-19 | an operation changes its own thread as it says and no other; a creation adds an empty one in front |
| `ContextMemory.RecordsOutcome` | src/core/context-memory.ts:441-469 | which operations add a compact state, of which thread, and that each but an edit records one event of its thread, if it has one |
| `ContextMemory.PromptInRun` | src/core/context-memory.ts:509-548 | in every run, the prompt of a thread with its latest compact state is the prompt of the cut thread |
| `ContextMemory.LedgerNumbered` | src/core/context-memory.ts:176-194 | recording only adds to the ledger, one event a time, each numbered by its place |
| `ContextMemory.LedgerIdsDistinct` | src/core/context-memory.ts:176-194 | transcript event ids are unique across all threads, whatever actions are recorded, and also when recording goes on from a saved ledger |
| `ContextMemory.RunRecords` | src/core/chat.ts:62-124 | the ledger of a run of the chat is such a ledger |
| `ContextMemory.CompactionNoticesEdit` | src/core/context-memory.ts:393-437 | editing one code unit of one message changes the recorded checksum |
| `StateMigration.NewEndpointIsNotLegacy` | src/core/runtime.ts:1559 | the address written by the migrations does not contain the one they look for |
| `StateMigration.EntrySettles` | src/core/runtime.ts:1577-1606 | one shipped record merged with a saved one settles: merging the result again changes no property |
| `StateMigration.LegacyExactly` | src/core/runtime.ts:1608-1670 | an added provider or node is recognised as legacy if and only if it names the old address and, in any case of its letters, the retired model |
| `StateMigration.MigrationOutcome` | src/core/runtime.ts:1613-1682 | a legacy record gets the new address, model and the properties written with them and keeps every other one; any other record is unchanged |
| `StateMigration.MigrateSettles` | src/core/runtime.ts:1609-1631 | a legacy migration never fires on its own result |
| `StateMigration.NormalizedStable` | src/core/runtime.ts:1561-1685 | providers, runtime nodes and threads: normalising again, in memory or after saving and reading back, changes no property of any record |
| `StateMigration.RetiredNodeStaysOut` | src/core/runtime.ts:1665-1666 | the retired node is in the result if and only if it is shipped |
| `StateMigration.IdsKept` | src/core/runtime.ts:1607-1632 | the result holds exactly the shipped ids and the saved ones that are not retired |
| `StateMigration.ProviderOutcome` | src/core/runtime.ts:1577-1605 | a shipped provider merged with a saved one, property by property: which are shipped, which saved, and when a saved model or address is kept |
| `StateMigration.NodeOutcome` | src/core/runtime.ts:1640-1664 | the same for a runtime node, with the GX10 node moved back to its shipped address and health |
| `StateMigration.ShippedModelsHold` | src/core/runtime.ts:1582-1604 | whatever was saved, a shipped provider keeps its allowed list and uses a model in it, and the shared MiniMax profile no retired model, if this is so of the shipped profile |
| `StateMigration.SavedPropertiesKept` | src/core/runtime.ts:1592-1604 | what was saved of a shipped record is kept, and what was not saved is as shipped, for every property the code does not guard |
| `StateMigration.SavedModelsKept` | src/core/runtime.ts:1582-1595 | a saved choice of an allowed model that is not retired is kept, and so is the address except of the GX10 profile |
| `StateMigration.AdditionsKept` | src/core/runtime.ts:1606-1632 | the records a user added follow the shipped ones in order, migrated if they are legacy ones |
| `StateMigration.AgentOutcome` | src/core/runtime.ts:1691-1724 | the same for an agent, and the precedence of the setup agent's own, the engineer's and the shipped providers |
| `StateMigration.SetupTakesOver` | src/core/runtime.ts:1695-1713 | the setup agent takes over what an engineer agent had saved, under its own id and name |
| `StateMigration.AgentsStable` | src/core/runtime.ts:1687-1725 | agents settle after one normalisation: the engineer agent is folded into the setup agent once |
| `StateMigration.ShippedAgentsStable` | src/core/runtime.ts:1687-1725 | agents saved as shipped come back as shipped |
| `StateMigration.EngineerWouldNotSettle` | src/core/runtime.ts:1692-1713 | for any registry that ships an engineer agent beside the setup agent, some saved agents change at a second normalisation |
| `StateMigration.AgentsSettleExactly` | src/core/runtime.ts:1687-1725 | agents settle after one normalisation, whatever was saved, if and only if the engineer agent is not shipped beside the setup agent |
| `StateMigration.StrategiesStable` | src/core/runtime.ts:1798-1816 | workload strategies settle after one normalisation |
| `StateMigration.StrategyOutcome` | src/core/runtime.ts:1799-1814 | a saved strategy that is shipped too gives up exactly the models retired for it, for the shipped route, and nothing else |
| `StateMigration.LegacyStrategiesGone` | src/core/runtime.ts:1804-1813 | no shipped strategy keeps a retired model, and every other saved strategy is unchanged |
| `StateMigration.ShippedStrategiesStable` | src/core/runtime.ts:1798-1816 | strategies saved as shipped come back as shipped |
| `StateMigration.ChannelsForget` | src/core/runtime.ts:1727-1747 | normalising channels twice is normalising once, with the add-ons enabled last |
| `StateMigration.ChannelOutcome` | src/core/runtime.ts:1732-1747 | a shipped channel merged with a saved one, property by property |
| `StateMigration.AddonChannelFlag` | src/core/runtime.ts:1741-1743 | the flag of a shipped add-on channel is the host's enablement, whatever was saved |
| `StateMigration.PlainChannelFlag` | src/core/runtime.ts:1741-1744 | a channel of no add-on keeps its saved flag, or the shipped one, and every channel its shipped label |
| `HostRebase.BuildCatalog` | src/core/runtime.ts:1508-1511 | the catalog holds the last local manifest of an id, or else the host's first candidate |
| `HostRebase.UnauthorizedInstallations` | src/core/runtime.ts:1512-1516 | every catalogued add-on starts available and unauthorized, bundled only if local and not sideloaded |
| `HostRebase.RebaseOnManifests` | src/core/runtime.ts:1500-1538 | for every id and slot, the installation and the owner that result |
| `HostRebase.RebaseSlots` | src/core/runtime.ts:1530-1533 | a slot has an owner exactly when the host names one that is not empty |
| `HostRebase.TablesDetermined` | src/core/runtime.ts:1500-1538 | installations and owners are determined by manifests and projection |
| `HostRebase.HostDecides` | src/core/runtime.ts:1517-1529 | with an acknowledgement, installed, enabled, status and grants are exactly the acknowledged ones; without one nothing is installed or enabled and every requested capability is listed and not granted |
| `HostRebase.ManifestDecides` | src/core/runtime.ts:1508-1522 | source, trust and presets come from the last local manifest of the id or else the host's first candidate, and trust only from a local one that was not sideloaded |
| `HostRebase.InstallationsAre` | src/core/runtime.ts:1508-1529 | listed are exactly the add-ons with a local manifest, a candidate or an acknowledgement |
| `HostRebase.OwnerIs` | src/core/runtime.ts:1530-1533 | a slot is owned by the last non-empty owner the host reports for it |
| `HostRebase.TrustIsDeclared` | src/core/defaults.ts:874-885 | a verified tier or state comes only from the declared provenance of a bundled manifest |
| `HostRebase.OfflineGrantsNothing` | src/core/runtime.ts:1486-1489 | without a projection nothing is installed, enabled or granted and no slot is owned |
| `HostRebase.HydrateState` | src/core/runtime.ts:1482-1498 | the start computed in place is the start the theorems are about |
| `HostRebase.StartSettles` | src/core/runtime.ts:1482-1538 | saving and starting again with the same host reproduces the state, from any saved state and from none: registries read the same, installations, owners and channels are the same |
| `HostRebase.SavedGovernanceIsIgnored` | src/core/runtime.ts:1373-1396 | whatever was saved, installations, slot owners and the flags of shipped add-on channels are the host's |
| `RunningWork.AddonWorkRegistry.BeginWork` | src/modules/addons/running-work.ts:14-17 | a fresh open lease, one more in flight, everything else unchanged |
| `RunningWork.AddonWorkRegistry.EndWork` | src/modules/addons/running-work.ts:17-28 | an open lease is closed and its count lowered, an ended one changes nothing |
| `RunningWork.AddonWorkRegistry.InFlight` | src/modules/addons/running-work.ts:30-32 | the number of leases begun for the add-on and not yet ended |
| `RunningWork.AddonWorkRegistry.StopRunningWork` | src/modules/addons/running-work.ts:33-38 | stopped exactly when every lease of the add-on has ended, and explained exactly when not |
| `RunningWork.RunConserves` | src/modules/addons/running-work.ts:10-40 | over every run each count is the number of open leases, and no zero is stored |
| `RunningWork.EndIsIdempotent` | src/modules/addons/running-work.ts:18-21 | ending a lease again changes nothing, whatever happened in between |
| `RunningWork.OthersUnaffected` | src/modules/addons/running-work.ts:14-28 | calls about one add-on leave another's count |
| `RunningWork.RunningWorkIsSeen` | src/modules/addons/running-work.ts:44-55 | until the work ends its lease, its add-on has work in flight, however other calls interleave |
| `ThemeTokens.NormalizedHue` | apps/augmentor/extension/theme-tokens.js:37 | the double remainder brings every hue, negative ones too, into its turn |
| `ThemeTokens.SectorWeights` | apps/augmentor/extension/theme-tokens.js:40-49 | in each of the six sectors every channel has the weight of the closed form |
| `ThemeTokens.HslToRgb` | apps/augmentor/extension/theme-tokens.js:33-52 | the sector computation is the closed form of section 7.1 of CSS Color Module Level 4, for every hue, saturation and lightness |
| `ThemeTokens.ChannelsAreBytes` | apps/augmentor/extension/theme-tokens.js:50-51 | every channel lies in 0..255 |
| `ThemeTokens.LighterIsNotDarker` | apps/augmentor/extension/theme-tokens.js:33-52 | raising the lightness lowers no channel |
| `ThemeTokens.GapsKeptExactly` | apps/augmentor/extension/theme-tokens.js:120-131 | for every level table in 2..100 the clamp never binds if and only if the setting is within the slider's reach or a larger headroom, or there is no headroom |
| `ThemeTokens.EndsOnBoundary` | apps/augmentor/extension/theme-tokens.js:110-119 | at the ends of the slider the extreme level lands exactly on 100 or 2, where the slider reaches that far |
| `ThemeTokens.BrighterIsNotDarker` | apps/augmentor/extension/theme-tokens.js:120-133 | moving the slider up darkens no channel of any surface |
| `ThemeTokens.ShippedTables` | apps/augmentor/extension/theme-tokens.js:100-103 | both shipped level tables lie in 2..100 |
| `ThemeTokens.PanelTheme` | apps/augmentor/extension/theme-tokens.js:108-147 | the six surfaces and the brand for all settings, each level shifted by one common offset within the slider's range |
| `ThemeTokens.SurfacesFor` | apps/augmentor/extension/theme-tokens.js:120-133 | the same for any level table |
| `ThemeTokens.NeutralIsShipped` | apps/augmentor/extension/theme-tokens.js:119-133 | at the neutral setting every surface of every table has exactly the colour its table gives it |
| `ThemeTokens.ShippedSurfaces` | apps/augmentor/extension/theme-tokens.js:100-104 | the background and the hovered scroll bar of both shipped themes |
| `ThemeTokens.LightIsLighter` | apps/augmentor/extension/theme-tokens.js:100-139 | every light surface is lighter than every dark one, and the light brand is the deeper one |
| `ThemeTokens.VeilPalette` | apps/augmentor/extension/theme-tokens.js:201-215 | the colour of every role of any palette table |
| `ThemeTokens.NeutralVeil` | apps/augmentor/extension/theme-tokens.js:205-213 | at the neutral setting every role has the colour its table gives it |
| `ThemeTokens.VeilKeepsGaps` | apps/augmentor/extension/theme-tokens.js:206-210 | brightening moves every role by the same number of points |
| `ThemeTokens.DimmingKeepsRatios` | apps/augmentor/extension/theme-tokens.js:85-89 | dimming keeps the ratio of any two lightnesses and ends in black |
| `ThemeTokens.AccentMonotone` | apps/augmentor/extension/theme-tokens.js:85-89 | a lighter accent stays lighter, and a brighter setting darkens none |

## Left out

- EventStream.ReadEvents: fetching, aborting, UTF-8 decoding, JSON parsing and the shape check of an event are parameters; a reader that its consumer abandons early is not modelled.
- EventStream.BridgeRoundTrip: the bridge's buffer limits, back-pressure and timers are not modelled; its events are given as texts without line breaks, as `JSON.stringify` writes them.
- HarnessClient.HarnessClient.Publish: listeners, freezing and cloning are left out; the content of a snapshot besides boot, revision and primary slot is one opaque value.
- CapabilityBootstrap.AtMostTwoFetches: routes, headers and error texts are left out; the answers a route can give are the three kinds the retry logic tells apart.
- ProviderRoute.ResolveProviderRoute: rank differences are compared as integers; the engine's sort is modelled by a stable insertion sort.
- ProviderRoute.RankOrder: for lists of up to 2^53 - 1 entries, more than a JavaScript array can have.
- StrategyRoute.NodesInTurn: for routes and localities up to that number.
- ComputeFabric.ValidateComputeJob: the secret patterns are a flag of the job, and issue texts and the list of missing roles are left out.
- FabricRuns.RefusedOrRecorded: audit details and metadata are left out.
- ContextMemory.CompactedPrompt: the mined summary, titles, authors and times of a thread are left out, and `appendMessage` looks the thread up again where the source captures the message in a variable.
- ContextMemory.PromptInRun: speaks of threads whose id no other thread shares; ids of new chats come from the clock.
- ContextMemory.RunRecords: branching, deleting and interrupting write to the ledger through the same function and are covered by `LedgerIdsDistinct`, but are no operations of a run.
- StateMigration.MigrateSettles: model names are lower-cased by the ASCII rule only; a saved list of the wrong JSON type counts as naming no model, where the source would throw.
- StateMigration.AgentsStable: requires that shipped ids are distinct and that the engineer agent is not shipped beside the setup agent, as is so of the shipped registry.
- StateMigration.NormalizedStable: records are compared property by property, so a property that holds `undefined` counts as absent.
- HostRebase.StartSettles: core services, workspaces, provider routing, archive policies, goal workspaces, the recovery session and preferences are merged in the same ways and are left out.
- HostRebase.RebaseOnManifests: `config`, `notes` and `privateProviderProfileIds` of an installation are left out.
- RunningWork.RunningWorkIsSeen: the promise handling of `withAddonWork` is not modelled, only its begin and end around any other calls.
- ThemeTokens.HslToRgb: over the real numbers; floating-point rounding is not modelled, and the final rounding is half up.
- `contrastOn` and the CSS strings: a power with a real exponent, and formatting.
- Deleting messages, copying compact states to a fork, goal workspaces, browser tools, delegation and the user interface.
- RouteKeys.OptionsAreOffers: labels, details and health shown with an option are left out.
- Diagnostics, provider labels and messages of the route resolvers.
