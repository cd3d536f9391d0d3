# Verified model of the External Secrets Operator for OpenShift

The operator reconciles one custom resource, ExternalSecretsConfig, into the deployments, policies and
other objects of the external-secrets operand. Its control logic is a level-triggered loop: a pass
compares every desired object with what the cluster has, writes where they differ, and may stop at any
client call. This project models that logic in Dafny and proves what it promises.

`dafny verify dfyconfig.toml` checks everything. The modules, by concern:

| file | concern |
|---|---|
| `Reconcile.dfy`, `Sharing.dfy`, `Tracking.dfy`, `ResourceMetadata.dfy` | the pass over a server store seen through a label-filtered cache, its three write modes, resources that share an object, labels, and the list of tracked annotation keys over whole runs |
| `Args.dfy`, `ArgsParser.dfy`, `Operand.dfy` | container arguments: keyed merge, the `OPERAND_*_ARGS` language, the precedence of defaults, variable and advancedOverrides |
| `Overrides.dfy`, `Allowlist.dfy`, `Effect.dfy` | advancedOverrides: allowlist on a JSON tree, strategic merge patch, re-merge of arguments, and what of a document arrives |
| `Rewriting.dfy`, `CaBundle.dfy`, `NamedLists.dfy` | rewriting a deployment for the proxy and for the user's CA bundle |
| `Drift.dfy`, `Sorting.dfy` | the comparators that decide whether a fetched object differs |
| `Once.dfy` | `Now`, a resettable once with double-checked locking |
| `Status.dfy`, `Mirror.dfy` | conditions written by two controllers as whole-status snapshots, and mirrored by a third |
| `Proxy.dfy`, `NetworkPolicy.dfy` | proxy layering and ports; the restartable one-time removal of old network policies |
| `Text.dfy` | options, results and the string primitives of Go that the rest uses |

State that the operator changes in place is a class (`Reconcile.Cluster`, `Operand.Deployment`,
`Rewriting.Deployment`, `Mirror.Manager`, `Proxy.Config`, `NetworkPolicy.Cluster`) whose methods are
proved against specification functions; the lemmas are about those functions. Protocols (`Once`,
`Status`, `Tracking`) are state machines, and their main results speak about every run.

Assumptions about the surroundings:

- The API server returns compared fields as written, and the cache shows exactly the objects whose
  labels pass its filter. A client call is served, refused, or carried out with its reply lost; the
  retries on a conflict inside one update count as one call.
- Manifests carry no annotation key that can be tracked, desired objects have distinct keys (what
  happens otherwise is `Sharing.SharedObjectsExact`), and nobody else adds a trackable key.
- The strategic merge patch merges objects key by key, deletes on null, merges containers by name in
  their order, replaces argument lists and values of different kinds, and fails on container entries
  that are not objects. Everything else it does (other lists, `$` directives, objects that are new)
  is a parameter `Library`, and the results hold for every such library. That the library keeps
  the order of the container list holds for container names without repeats, which Kubernetes demands.
- A deployment and its JSON form determine each other, an empty list being left out.
- URL parsing, PEM validation and strict decoding of a deployment are parameters.

Where the code does not do what its documentation or its purpose suggests, the model follows the code,
shows an input, and proves exactly when it happens:

- `updateStatusCondition` is described as updating the controller's entry, but where there is none yet
  it works on a struct whose copy was appended to the list, so the first source condition is lost until
  the next pass (`Mirror.MirrorConverges`).
- `parseOperandArgsEnv` strips trailing commas only once. A flag keeps one exactly when its part of the
  text has a value and ends in a comma, spaces and commas (`ArgsParser.TrailingCommaExact`).
- The dots of the disallowed-label pattern are not escaped, so labels such as `app-kubernetes.io/x` are
  dropped too; exactly which is `ResourceMetadata.LooseDotsExact`.
- A proxy URL with neither a port nor an http or https scheme passes validation. If the egress policy
  should exist, its builder then returns no object, and the caller goes on to use it
  (`Proxy.ReconcileProxyEgressPolicy`).
- The cleanup of old network policies deletes a policy that the same pass applied exactly when some user
  policy bears the name of an applied one, such as `eso-user-x` beside `x`
  (`NetworkPolicy.AppliedSurvivesExact`).
- Both controllers write whole statuses, so a stale copy can erase a stored Ready condition; exactly
  which steps do is `Status.ErasingStepExact`.
- Resources that share an object, as user network policies of one name for two components do, never
  settle unless one of them asks for what all accept (`Sharing.SharedObjectsExact`).
- A key applied under a spec that was edited away before it was completed stays on the object although
  nothing tracks it (`Tracking.OrphanExact`).

## Model

| member | source | states |
|---|---|---|
| `Reconcile.Cluster.ApplyResource` | pkg/controller/external_secrets/utils.go:365-467 | looking one object up through the cache, creating it, falling back when it exists but is hidden, or updating it: whatever call fails the store is either untouched or as after the whole apply, and a settled object costs no write |
| `Reconcile.Cluster.Pass` | pkg/controller/external_secrets/install_external_secrets.go:32-139 | a pass stopped at any client call has applied a prefix of the resources and moved the tracking list only after all of them; without a failing call it succeeds; if everything is settled it writes nothing, even when calls fail; and a pass that succeeds without a write found everything settled |
| `Reconcile.PassConverges` | pkg/controller/external_secrets/install_external_secrets.go:32-99 | from any store, objects missing, drifted or hidden, a complete pass leaves every object present, visible and not reported as changed under the next tracking list, which needs no update |
| `Reconcile.PassLeaves` | pkg/controller/external_secrets/utils.go:400-467 | over a whole pass, value by value and for each way of writing: a Secret or ConfigMap keeps its data, the Namespace keeps every label and annotation that the operator does not set, a replaced object has the manifest's compared fields, exactly the manifest's and operator's labels, and at least their annotations; deleted keys are gone, all else was there before, and a created object is exactly what manifest and metadata name |
| `Reconcile.ReconcileTwice` | pkg/controller/external_secrets/install_external_secrets.go:32-99 | after a pass without a failing call, a second pass under the same spec issues no write |
| `Sharing.SharedObjectsExact` | pkg/controller/external_secrets/networkpolicy.go:102-155 | for any list of resources: from every store a pass without a failing call leaves nothing to write if and only if, among the resources that share a key, one asks for an object that all accept; otherwise, from an empty cluster, every pass of however many finds something to write |
| `Sharing.SameMetadataExact` | pkg/controller/external_secrets/networkpolicy.go:117-155 | for resources that differ in their compared fields only, as user network policies do, that condition is that those sharing a key ask for the same object |
| `Sharing.ConflictNeverSettles` | pkg/controller/external_secrets/networkpolicy.go:117-155 | two replaced resources of one key with different specs or labels are never both settled, in no store |
| `Sharing.DifferentObjectsMaySettle` | pkg/controller/common/utils.go:292-320 | asking for the same object is not needed in general: a family of two resources that ask for different objects and settle together |
| `Reconcile.AppliedIsSettled` | pkg/controller/common/utils.go:246-320 | for each of the three write modes, what a write leaves is visible and, once the deleted keys are no longer tracked, not drifted; while they are, it is drifted if and only if it is the Namespace and some key is deleted |
| `Reconcile.AppliedDropsDeleted` | pkg/controller/common/utils.go:883-908 | applying leaves no formerly tracked key on the object or its pod template |
| `Reconcile.AppliedAddsOnlySpec` | pkg/controller/common/utils.go:86-112 | applying adds no annotation key but the spec's and the manifest's |
| `Reconcile.ApplyAllAt` | pkg/controller/external_secrets/install_external_secrets.go:32-99 | with distinct keys a pass does to each object what applying its own resource alone does |
| `Reconcile.AnnotationMapsModified` | pkg/controller/common/utils.go:308-320 | the loops report drift exactly when a desired value differs, a missing key reading as the empty string, or a deleted key is still there |
| `Reconcile.TrackingSettles` | pkg/controller/external_secrets/install_external_secrets.go:106-139 | after the list is written nothing counts as deleted and it needs no update |
| `Tracking.TrackingIsSafe` | pkg/controller/external_secrets/install_external_secrets.go:106-139 | in every run in which each spec is completed after any number of stopped passes and outside changes, the tracking list is then the spec's key set without repeats and no resource carries a formerly tracked key that the spec lacks |
| `Tracking.DuringRound` | pkg/controller/external_secrets/install_external_secrets.go:106-139 | until the completing pass the list does not move, and resources carry only keys that are tracked or in the spec |
| `Tracking.RoundIsSafe` | pkg/controller/external_secrets/install_external_secrets.go:290-309 | one round keeps the invariant and clears everything the spec dropped |
| `Tracking.UntrackedKeySurvives` | pkg/controller/common/utils.go:246-320 | for every write mode: a key that is neither tracked nor wanted survives a pass if and only if it was there and the object is the Namespace, or is visible and matches on everything the comparison reads |
| `Tracking.OrphanExact` | pkg/controller/external_secrets/install_external_secrets.go:106-139 | after a stopped pass under any edited spec and a completed one under the final spec, from any store and list: a key outside the final spec stays on an object exactly when the stopped pass left it there, it was not tracked, and the object is the Namespace or matches the final spec otherwise |
| `Tracking.EditedSpecLeavesOrphan` | pkg/controller/external_secrets/install_external_secrets.go:106-139 | from any store and any list that does not track the key, on every resource that the stopped pass reached: a key that the edit added with a value stays, in no list |
| `Tracking.RunPass` | pkg/controller/external_secrets/install_external_secrets.go:32-139 | every pass of the operator, wherever it stops, is a stopped pass or the completion of a round; a final patch carried out with its reply lost is a completion |
| `ResourceMetadata.LengthTestExact` | pkg/controller/common/utils.go:912-938 | the update test that compares only counts is exact: for a list without repeats it says no update if and only if the list holds exactly the spec's keys |
| `ResourceMetadata.LengthTestExactOnly` | pkg/controller/common/utils.go:912-938 | the count test is exact for every spec if and only if the tracked list has no repeats |
| `ResourceMetadata.GetDeletedKeys` | pkg/controller/external_secrets/install_external_secrets.go:290-309 | the loop returns the tracked keys that the spec lacks, in order |
| `ResourceMetadata.GetResourceLabels` | pkg/controller/external_secrets/install_external_secrets.go:263-284 | filling the map in place gives the layered labels |
| `ResourceMetadata.LabelPrecedence` | pkg/controller/external_secrets/install_external_secrets.go:263-284 | for all user labels a default wins over ExternalSecretsConfig, which wins over ExternalSecretsManager, and disallowed keys never get through; in particular app=external-secrets stays |
| `ResourceMetadata.ReservedKeys` | pkg/controller/external_secrets/install_external_secrets.go:23 | the two keys that deployment selectors use can come neither from a user nor from the defaults |
| `ResourceMetadata.LooseDotsExact` | pkg/controller/external_secrets/install_external_secrets.go:23 | a key is rejected only because the dots are not escaped if and only if it matches one of the four dotted patterns with another character at a dot; nothing that the literal pattern rejects gets through |
| `ResourceMetadata.LooseDotRejects` | pkg/controller/external_secrets/install_external_secrets.go:23 | a key for every other character in place of a dot that is rejected though it is not reserved |
| `ResourceMetadata.SelectorStillMatches` | pkg/controller/external_secrets/deployments.go:212-224 | a pod template that matched its selector on app.kubernetes.io/name and instance still matches after rewriting, for all user labels |
| `Args.FlagKeyExact` | pkg/controller/external_secrets/deployments.go:836-844 | a flag with any value and the bare flag have one key, and exactly the positional arguments have none |
| `Args.MergeContainerArgs` | pkg/controller/external_secrets/deployments.go:906-932 | the index-map loop computes the one-by-one keyed merge |
| `Args.MergeExact` | pkg/controller/external_secrets/deployments.go:906-932 | the merged list position by position, for all lists: within the base the last occurrence of each key that the overrides set takes their last value and all else stays; after it stand exactly the flags that the base does not set, each once, with their last value |
| `Args.NewKeysExact` | pkg/controller/external_secrets/deployments.go:906-932 | the keys that are appended: each once, exactly those that the overrides set and the base does not, in the order of first occurrence |
| `Args.MergeComposes` | pkg/controller/external_secrets/deployments.go:906-932 | merging two lists one after the other is merging their concatenation, duplicates included |
| `Args.MergeEffect` | pkg/controller/external_secrets/deployments.go:906-932 | the last value of each flag is the override's if it sets the flag, else the base's; keys keep their positions and positional tokens stay |
| `Args.MergeSelf` | pkg/controller/external_secrets/deployments.go:906-932 | a list merged into itself is itself, duplicates included |
| `Args.MergeIdempotent` | pkg/controller/external_secrets/deployments.go:906-932 | merging the same overrides twice is merging them once |
| `Args.MergeWithin` | pkg/controller/external_secrets/deployments.go:906-932 | when all override keys are present, exactly the last occurrence of each key changes |
| `ArgsParser.ParseOperandArgsEnv` | pkg/controller/external_secrets/deployments.go:846-901 | the appending loop computes the recursive parse, errors included |
| `ArgsParser.ParsedFlagsAreWellFormed` | pkg/controller/external_secrets/deployments.go:846-901 | for every input each flag of a successful parse starts with --, has a name, holds no separator and no surrounding space, has no comma unless it has a value, and the list prints no longer than the input |
| `ArgsParser.ParsePrintExact` | pkg/controller/external_secrets/deployments.go:32 | parsing the comma-joined list returns the list if and only if every flag is canonical |
| `ArgsParser.ParseSeparated` | pkg/controller/external_secrets/deployments.go:32 | canonical flags are read back from any text with one or more commas and any white space between them |
| `ArgsParser.ParseAcceptsExactly` | pkg/controller/external_secrets/deployments.go:846-901 | for every text: it is accepted if and only if each part that holds anything names a flag, and then each such part gives one flag, in order |
| `ArgsParser.TrailingCommaExact` | pkg/controller/external_secrets/deployments.go:846-901 | for every text that parses, no flag keeps a trailing comma if and only if no part of the text that has a value ends, once trimmed, in a comma, spaces and commas |
| `ArgsParser.ParseFixpoint` | pkg/controller/external_secrets/deployments.go:846-901 | printing and parsing what was parsed gives it back under exactly that condition on the text |
| `ArgsParser.TrailingCommaSurvives` | pkg/controller/external_secrets/deployments.go:846-901 | for every canonical flag with a value, an input that parses to the flag with a trailing comma |
| `Overrides.CheckExact` | pkg/controller/external_secrets/advanced_overrides.go:125-234 | the walk reports no problem if and only if the patch decodes and every level is omitted or an object with allowed keys, containers a list whose object entries bear the component's name and allowed keys |
| `Allowlist.AllowedIsPathwise` | pkg/controller/external_secrets/advanced_overrides.go:18-33 | passing the allowlist is the same as: every JSON path of the document, to any depth and explicit nulls included, may stand |
| `Overrides.OverridesAcceptExactly` | pkg/controller/external_secrets/advanced_overrides.go:40-82 | with the container present, overriding succeeds exactly on documents that decode, are allowed, and that the library accepts |
| `Overrides.OverridesAreFramed` | pkg/controller/external_secrets/advanced_overrides.go:40-82 | for every document and library, success changes only affinity, tolerations, nodeSelector, topologySpreadConstraints and the named container's args and resources, if and only if the container exists or there is no container entry; the arguments are the old ones merged with the given ones |
| `Overrides.PatchIsFramed` | pkg/controller/external_secrets/advanced_overrides.go:280-307 | the same frame for the patch alone, and the argument list that is left is that of the last entry mentioning one |
| `Effect.OverridesTakeEffect` | pkg/controller/external_secrets/advanced_overrides.go:40-82 | from the user's document to the deployment: below the four pod fields every scalar given arrives at its path, an explicit null deletes, and what is not mentioned stays |
| `Effect.ResourcesTakeEffect` | pkg/controller/external_secrets/advanced_overrides.go:40-82 | the same for the resources of the named container, for a document of which one container entry mentions resources |
| `Effect.ArgumentsTakeEffect` | pkg/controller/external_secrets/advanced_overrides.go:63-79 | the arguments of the last container entry of the document that mentions arguments are merged into the container's, and without one they stay |
| `Effect.PatchTakes` | pkg/controller/external_secrets/advanced_overrides.go:280-307 | the patch itself along any path of keys on which both sides have objects |
| `Effect.NamesDecide` | pkg/controller/external_secrets/advanced_overrides.go:98-120 | a document with an entry that names another container is turned away; a missing name is completed |
| `Effect.RawCases` | pkg/controller/external_secrets/advanced_overrides.go:40-57 | no document changes nothing, an unreadable one or one that is no object is turned away |
| `Effect.ProblemIsThere` | pkg/controller/external_secrets/advanced_overrides.go:125-258 | a reported problem is at the place of the document that it names |
| `Operand.InjectContainerName` | pkg/controller/external_secrets/advanced_overrides.go:98-120 | the loop gives every nameless object entry the component's name and leaves the rest; the document is unchanged when it reports no injection |
| `Operand.ValidateOverridePaths` | pkg/controller/external_secrets/advanced_overrides.go:125-199 | the first problem in the order of the checks, none exactly when the patch decodes and is allowed |
| `Operand.PatchAndRemerge` | pkg/controller/external_secrets/advanced_overrides.go:63-79 | saving, patching and re-merging the arguments gives the patched deployment with merged arguments, or the patch's error |
| `Operand.Deployment.ApplyAdvancedOverrides` | pkg/controller/external_secrets/advanced_overrides.go:40-82 | any error leaves the deployment as it was; success keeps the frame when the container exists |
| `Operand.Deployment.ApplyOperandArgsFromEnv` | pkg/controller/external_secrets/deployments.go:941-961 | a blank variable is a no-op; an unreadable flag is reported with its text and a missing container as such, and neither changes anything; otherwise the container's arguments are merged with the flags |
| `Operand.EnvAcceptsExactly` | pkg/controller/external_secrets/deployments.go:941-961 | exactly when the variable is accepted, and which problem is reported for an unreadable flag |
| `Operand.BuildDeployment` | pkg/controller/external_secrets/deployments.go:141-199 | the pipeline run step by step on one deployment, proxy rewriting last, and which step's problem it returns |
| `Operand.ArgumentPrecedence` | pkg/controller/external_secrets/deployments.go:141-199 | through the whole pipeline every flag takes its value from advancedOverrides, else from the variable, else from the defaults; no default flag is lost and default positional tokens stay in place |
| `Rewriting.MergeContainerEnvVars` | pkg/controller/external_secrets/deployments.go:577-606 | the loops give the managed variables in name order without empty ones, then the others |
| `Rewriting.MergedEnvCarries` | pkg/controller/external_secrets/deployments.go:577-606 | every managed name carries exactly its non-empty value once, every other name keeps its variables, and the order of the others is kept |
| `Rewriting.MergedEnvOrder` | pkg/controller/external_secrets/deployments.go:577-606 | the managed variables come first and in the order of their names |
| `Rewriting.ProxyAlgebra` | pkg/controller/external_secrets/deployments.go:542-740 | for every deployment: remove undoes apply, a later apply replaces an earlier one, removing twice is removing once |
| `Rewriting.ProxyEnvironment` | pkg/controller/external_secrets/deployments.go:629-651 | in every container the six proxy names carry exactly the non-empty resolved values and all other variables stay in order |
| `Rewriting.MergeUserEnvVars` | pkg/controller/external_secrets/deployments.go:1004-1022 | the nested loops replace or add one override after the other |
| `Rewriting.Deployment.UpdateProxyConfiguration` | pkg/controller/external_secrets/deployments.go:542-571 | in place, for every container and init container: if a proxy value is set, the six names carry exactly the non-empty values, trusted-ca-bundle is mounted read-only at /etc/pki/tls/certs and the pod has its volume from the trusted-ca ConfigMap; if none is set, no trace of them is left; all else stays in order |
| `Rewriting.UpdatedProxyExact` | pkg/controller/external_secrets/deployments.go:542-740 | the same for the deployment as a value, for every deployment and configuration |
| `Rewriting.Deployment.ApplyUserCABundleConfig` | pkg/controller/external_secrets/deployments.go:751-832 | every branch, in the order of the checks: which outcome, what becomes of volume, mount and SSL_CERT_DIR, and that the warning gate is opened exactly when no bundle is configured |
| `Rewriting.Deployment.BuildCore` | pkg/controller/external_secrets/deployments.go:120-199 | the core deployment is built in the order CA bundle, user variables, proxy, so that every container of a built one has exactly the configured proxy; a missing ConfigMap still returns the cleaned deployment |
| `CaBundle.CoreDeploymentIsCoherent` | pkg/controller/external_secrets/deployments.go:751-832 | in every built core deployment the user-ca-bundle volume exists iff the core container mounts it iff the bundle was mounted, and SSL_CERT_DIR agrees with both if and only if it was mounted, its ConfigMap is missing, or the user's variables do not name SSL_CERT_DIR |
| `CaBundle.MountsResolve` | pkg/controller/external_secrets/deployments.go:653-740 | given a manifest whose mounts resolve, every mount on every container names a pod volume if and only if the bundle was mounted or no other container mounts it |
| `CaBundle.CoreBuiltExactly` | pkg/controller/external_secrets/deployments.go:751-818 | from the inputs: exactly when a core deployment is built, built with an error beside it, or not built |
| `CaBundle.VerdictExact` | pkg/controller/external_secrets/deployments.go:751-818 | exactly when the bundle is mounted, skipped, or reported missing |
| `CaBundle.CoreGetsBundle` | pkg/controller/external_secrets/deployments.go:807-832 | from the inputs: if the bundle is wanted, its volume comes from the referenced ConfigMap and key and is mounted read-only at /etc/pki/tls/user-certs on the core container; otherwise no such volume or mount is left |
| `CaBundle.UserEnvWins` | pkg/controller/external_secrets/deployments.go:1004-1022 | for all lists, the last override of a name stands in place of the first variable of that name |
| `CaBundle.CoreEnvironment` | pkg/controller/external_secrets/deployments.go:962-1000 | on the built core container every other variable is the user's if given, else the manifest's |
| `Drift.SlicesEqualUnordered` | pkg/controller/common/utils.go:566-599 | true implies equal multisets; with identifying names true exactly for permutations |
| `Drift.SortCompareExact` | pkg/controller/common/utils.go:566-599 | with an unstable sort every permutation is recognised if and only if entries of one name are identical |
| `Drift.PortsModified` | pkg/controller/common/utils.go:454-471 | the nested loop accepts exactly lists of equal length in which every fetched port, protocol defaulted to TCP, has a desired twin |
| `Drift.OmittedIsTcp` | pkg/controller/common/utils.go:539-544 | an omitted protocol reads as TCP and as nothing else |
| `Drift.PortLoopExact` | pkg/controller/common/utils.go:454-471 | the port loop accepts exactly permutations if and only if the fetched ports are distinct |
| `Drift.ContainersModified` | pkg/controller/common/utils.go:419-438 | unmodified implies every desired container is matched by name; modified, with distinct names, implies one is not |
| `Drift.EveryFetchedMatched` | pkg/controller/common/utils.go:419-438 | although only desired containers are visited, no fetched one goes unmatched when desired names are distinct |
| `Drift.ResourceListEqual` | pkg/controller/common/utils.go:507-525 | the walk over one side with early exit decides `SameResources` |
| `Drift.SameResourcesExact` | pkg/controller/common/utils.go:507-525 | the one-sided walk decides equality of the lists as functions from names to numbers |
| `Drift.SameResourcesEquivalence` | pkg/controller/common/utils.go:499-531 | it is reflexive, symmetric and transitive |
| `Drift.RepresentationIrrelevant` | pkg/controller/common/utils.go:499-531 | writing quantities with another mantissa and scale of the same value changes no verdict |
| `Drift.SameQuantityIsSameValue` | pkg/controller/common/utils.go:507-525 | comparing mantissas at a common scale is equality of the numbers |
| `Once.NowGuarantee` | pkg/controller/common/utils.go:40-44 | over every interleaving of any number of Do and Reset calls: runs of f never overlap, f runs at most once between resets, a Do that returns has observed a run completed after the latest reset before its deciding load, a Reset that returns has cleared the gate between its call and its return, and a Do that decides after such a Reset, with no run completed since that Reset was called, has run f itself after its load |
| `Once.StepInv` | pkg/controller/common/utils.go:860-877 | the invariant tying flag, mutex, program counters and log is kept by every atomic step |
| `Once.NeverStuck` | pkg/controller/common/utils.go:860-877 | in every reachable state a thread can take a step unless it waits for the mutex, whose holder never waits; an idle thread can call Do as well as Reset |
| `Status.StoredStatusCoherent` | pkg/controller/external_secrets/controller.go:461-595 | over all interleavings of the two controllers, stale copies included, every stored status has Ready and Degraded both absent or both of one outcome and generation, never both true |
| `Status.StepInv` | pkg/controller/crd_annotator/controller.go:272-316 | every step of either controller keeps stored and copied statuses coherent |
| `Status.WritesItsOutcome` | pkg/controller/external_secrets/controller.go:461-525 | in every run, when a reconcile that fetched at generation g and ended with outcome o writes, the stored Ready is true if and only if o is a success, Degraded is true if and only if o is irrecoverable or a wrong user configuration, and both carry g |
| `Status.SilentWhenSaid` | pkg/controller/external_secrets/controller.go:560-595 | a reconcile that ends without a write had fetched a version that already said so |
| `Status.WritesItsAnnotation` | pkg/controller/crd_annotator/controller.go:272-316 | what the annotator writes says, for the generation it fetched, whether annotating failed |
| `Status.NeverStuck` | pkg/controller/crd_annotator/controller.go:272-316 | any stored version can be fetched, any outcome reported, and what is due written |
| `Status.ErasingStepExact` | pkg/controller/external_secrets/utils.go:66-86 | in every run a step erases a stored Ready if and only if it is a write or image update by a reconcile that has not set Ready and whose fetched version had none |
| `Status.ReadyStaysExact` | pkg/controller/external_secrets/utils.go:66-86 | from a stored Ready on, every status stored has Ready if and only if no step is taken by such a stale writer |
| `Status.ReadyStays` | pkg/controller/external_secrets/utils.go:66-86 | in particular if from then on every fetch reads a version with Ready and every copy in flight has it |
| `Status.StaleCopyErasesReady` | pkg/controller/external_secrets/utils.go:66-86 | a run in which a stale copy erases a stored Ready |
| `Status.RequeuesExactly` | pkg/controller/external_secrets/controller.go:488-536 | once its status is written a reconcile asks to run again exactly when it reported progress or a missing user object, and never when the write failed |
| `Mirror.Manager.UpdateStatusCondition` | pkg/controller/external_secrets_manager/controller.go:190-233 | the update through the returned pointer, in the list or detached from it, and what it reports |
| `Mirror.Manager.Process` | pkg/controller/external_secrets_manager/controller.go:167-188 | a pass stores the mirrored entries exactly when some condition was reported |
| `Mirror.MirrorConverges` | pkg/controller/external_secrets_manager/controller.go:167-233 | from any status and any sources of distinct types, at least one, two passes show every source condition and a third reports nothing; one pass suffices if and only if the entry existed |
| `Mirror.PassLeavesOthers` | pkg/controller/external_secrets_manager/controller.go:205-233 | a pass touches no other controller's entry and no condition of a kind that the source lacks; the observed generation moves only if something was reported |
| `Proxy.ResolveProxyConfiguration` | pkg/controller/external_secrets/utils.go:152-191 | filling fields in place from the three sources, then validating, resolves their layered configuration |
| `Proxy.ResolveExact` | pkg/controller/external_secrets/utils.go:152-258 | exactly when there is no proxy, and when the configuration is invalid: a set URL that does not parse, lacks scheme or host, or has a port that is no number from 1 to 65535 |
| `Proxy.DecimalReads` | pkg/controller/external_secrets/utils.go:248-256 | a port's digits read as the number they write |
| `Proxy.Config.MergeFields` | pkg/controller/external_secrets/utils.go:193-209 | unset fields, and only those, are filled |
| `Proxy.LayeredSplits` | pkg/controller/external_secrets/utils.go:152-209 | grouping any number of sources in any way gives the same configuration |
| `Proxy.LayeredIsFirstSet` | pkg/controller/external_secrets/utils.go:152-209 | every field is the first non-empty one in the order of precedence |
| `Proxy.ExtractProxyPorts` | pkg/controller/external_secrets/networkpolicy.go:355-385 | the loop returns exactly the positive ports of the two URLs, each once, the HTTPS one first |
| `Proxy.ResolvedPorts` | pkg/controller/external_secrets/networkpolicy.go:355-385 | for every resolved configuration at most two distinct ports, each in 1..65535, and none if and only if no set URL has a port or an http or https scheme |
| `Proxy.ValidPort` | pkg/controller/external_secrets/utils.go:231-258 | what validation gives to a URL's port: the explicit one if there is one, else 443 for https and 80 for http, in range, and none otherwise |
| `Proxy.ReconcileProxyEgressPolicy` | pkg/controller/external_secrets/networkpolicy.go:247-313 | the builder's missing object is used if and only if the policy should exist and no set URL has a port or an http or https scheme; otherwise it is applied with real ports, removed, or left absent |
| `Proxy.SocksIsUnbuilt` | pkg/controller/external_secrets/utils.go:231-258 | a valid configuration for which that happens |
| `Proxy.LayerIsAssociative` | pkg/controller/external_secrets/utils.go:193-209 | layering is associative with the empty configuration as unit |
| `NetworkPolicy.LegacyOperatorNetworkPolicyNames` | pkg/controller/external_secrets/networkpolicy.go:393-406 | the loops collect the enabled static names without their prefix and the user names |
| `NetworkPolicy.Cluster.Cleanup` | pkg/controller/external_secrets/networkpolicy.go:418-477 | stopped at any call, also one carried out with its reply lost, it has deleted only listed policies with legacy names and changed no other; the marker is written exactly when the list is served, no delete fails and the patch is carried out, and then none of those policies remains |
| `NetworkPolicy.RestartIsTransparent` | pkg/controller/external_secrets/networkpolicy.go:28-48 | over runs that apply and clean up in any order and stop anywhere, with a growing user list: once the marker is written, a policy that no pass applies is there, unchanged, if and only if it was there at the start and was not a listed policy with a legacy name |
| `NetworkPolicy.OthersSurvive` | pkg/controller/external_secrets/networkpolicy.go:411-455 | in every such run a policy that is not listed or that no configuration names stays as it is, unless it is one that is applied |
| `NetworkPolicy.NoneLeft` | pkg/controller/external_secrets/networkpolicy.go:418-455 | from the moment the marker is written none of the policies that the cleanup is for is left, as long as no later pass applies one of those names |
| `NetworkPolicy.OldNamesGone` | pkg/controller/external_secrets/networkpolicy.go:393-406 | plainly: then no listed policy is left that bears the name of a user policy, or a name which with eso-sys- before it is that of an enabled static policy |
| `NetworkPolicy.MarkerEndsCleanup` | pkg/controller/external_secrets/networkpolicy.go:418-421 | in every run, once written the marker stays and no later cleanup changes anything, whatever is applied and configured in between |
| `NetworkPolicy.ClashExact` | pkg/controller/external_secrets/networkpolicy.go:393-406 | the cleanup can name a policy that the same pass applies if and only if some user policy has the name of an applied one |
| `NetworkPolicy.PlainUsersNeverClash` | pkg/controller/external_secrets/networkpolicy.go:393-406 | user names without the two prefixes never clash with a policy applied now or under a later configuration |
| `NetworkPolicy.AppliedSurvivesExact` | pkg/controller/external_secrets/networkpolicy.go:28-48 | a pass never deletes what it applied if and only if no user policy has the name of an applied one |
| `NetworkPolicy.CompletedCleanupKeeps` | pkg/controller/external_secrets/networkpolicy.go:28-48 | a completed cleanup keeps a policy just applied if and only if its name is no legacy name |
| `NetworkPolicy.PrefixedUserIsDeleted` | pkg/controller/external_secrets/networkpolicy.go:393-406 | for every user name: beside it, a second one with the prefix makes every completed cleanup delete a policy just applied |

## Left out

- Manager, cache and watch wiring, process start-up, events and logging.
- Base64 and JSON text of the tracking list, and the failure to decode it; the model keeps the list itself.
- Duplicate keys in JSON text and invalid UTF-8; a document is the tree it parses to.
- The single conflict retries of an update; a retry that ends well counts as one served call.
- Reconcile.Cluster.Pass: the policy cleanup, the proxy egress policy and the image status write are modelled apart, in `NetworkPolicy`, `Proxy` and `Status`, and not as steps of this pass.
- Changes of the set of enabled resources between rounds.
- The version label of the bitwarden deployment, which is overwritten after the common labels are applied; `Reconcile.Desired` gives it the common one.
- Validation of the custom resource before a pass, and the finalizer.
- Transition times of conditions; metrics.
- Rewriting.Deployment.BuildCore: the steps between CA bundle and proxy that touch neither environment, mounts nor volumes are one error flag.
- The label and annotation loops on pod templates beyond what `Reconcile` and `SelectorStillMatches` say.
- Full comparison of deployment specs: several fields are deliberately not compared by the operator, so "unchanged implies identical" is no claim of it.
- Drift.ContainersModified: the comparison of two containers is a parameter.
- Effect.ResourcesTakeEffect: says nothing of documents in which several entries for the one container mention resources, which are patched one after the other.
- NetworkPolicy.NoneLeft: a name that enters the user list only after the marker is written is not cleaned up by the operator, so nothing is claimed for it.
- Missing-container patches: where the library puts a new container in the list is taken to be the end.
- Two URL parsers (`ParseRequestURI` for validation, `Parse` for ports) are taken to agree on validated URLs.
- TLS profiles, log levels, images, resource and affinity validation, RBAC, webhooks, services and service accounts: parameters, or repetitions of the generic apply step.
- CEL rules of the API; they appear as preconditions only where a result says so.
