# finch-daemon, verified

A Dafny model of the parts of finch-daemon that keep state or transform data, with proofs about
them. containerd, nerdctl, CNI and the kernel appear as small stores whose operations may fail;
what is proved is the daemon's own logic over them. Every `.dfy` file is one component.

**Networks.** `NetworkLocks` is the table of reference-counted mutexes. `NetworkProtocol` is the
interleaving system of any number of Create and Remove requests, with an outcome chosen freely at
every backend call. `NetworkSafety` has what every step keeps, `NetworkLiveness` progress,
`NetworkRuns` the theorems over whole runs, `NetworkOutcomes` what Create and Remove achieve, and
`NetworkWitnesses` concrete runs. `Iptables` is
the isolation chain with packet evaluation, `BridgeConfig` the CNI config files and the bridge
driver's options, and `BridgeNames` concurrent calls under the lock of the config directory.

**Containers.** `Connect` is the numbering and rollback of network connect, `Inspect` its inverse,
`Top` the `ps` table, `Mounts` the read-only check of put-archive, and `Stats` the chain of readings
and the host CPU time.

**Images, builds, API.** `Credentials` and `BuildCredentials` are registry matching and the
build-scoped cache, `ImageRef` and `ImageRemove` references and removal, `Streams` the response
writers, `Filters` filter normalisation and event filters, and `Topics` what an event filter
matches. `Prelude`, `Text` and `Words` are shared vocabulary.

## What does not hold

Some properties one would expect are false of the code. Each is kept as it is, shown by a run or
an input, and replaced by the exact condition under which it holds.

- A DROP rule can outlive its network. Remove reads the network (`remove.go:17`) before it takes
  the lock (`remove.go:40`). If another Remove and a Create of the same name run in between, the
  first Remove works from the labels of a network that is gone. The guard
  (`NetworkSafety.CreateGuard`) says that when a Create that asks for rules makes its network, the
  labels every pending Remove of that name has seen clear those rules. Guarded runs keep every rule
  owned, and from every state in which a Create breaks the guard, with the bridge name it asks for
  free, the run can go on to a rule that no network owns. Sequential runs always meet the guard,
  also past a deadlocked cleanup.
- The cleanup of a failed Create never removes anything. It calls Remove with the mutex held, and
  Remove waits for that mutex. Whenever the lookup in the cleanup succeeds, the request waits for
  itself forever.
- "Blocked if and only if the last successful rule operation was an add" fails for a bridge that
  is added twice. The cleanup after a failed insertion deletes the rule of the earlier add. It
  holds on every table and under all failures exactly for bridges added at most once.
- `getNetworkName` indexes out of range on `unknown-eth<n>` exactly for n from 2^63 to 2^64 - 1.
- `top` rows lose or double words exactly when a title that can be filled is repeated.
- `isParentDir` does not stop on a relative path under a mount point that is not, in clean form,
  above it; for a rooted mount point it stops exactly on rooted paths. put-archive with a relative
  target returns exactly when the root is read-only, no mount is, or the first read-only mount is
  above the target. Otherwise the recursion overflows the stack, which ends the daemon.
- The target of put-archive is cleaned (`put_archive.go:107`) but mount points are compared as they
  are written (`put_archive.go:118`), so a read-only mount on "/a/" is not honoured. Read-only
  mounts are honoured on every path exactly when each is covered by one that is written cleanly.
- The raw-key fallback of a credential lookup does succeed, exactly for the empty address with
  credentials filed under it, where it equals the raw lookup.
- Event filters are not anchored: `topic~="/dockercompat/*"` also matches "/x/dockercompat" and
  "/dockercompatible". Over all topics, a subscription delivers only topics that start with the
  prefix exactly when it delivers nothing. The confinement below is therefore over topics in which
  the prefix occurs at the start if at all.
- An event type goes into a regular expression unquoted (`events.go:77`), so the type "a|." selects
  every topic. Among those topics, a subscription stays with the ones that start with the prefix
  exactly when there is no type list, or it is not empty and no later alternative of a valid type
  escapes the prefix; for types without a slash, exactly when they have no alternatives. A type is
  taken literally exactly when it has no special character.
- System CPU usage is exact if and only if ticks times 10^9 fits in 64 bits.
- Image Remove returns its two lists in the opposite order from its signature; the model follows
  the code.
- An empty `type` filter list gives no containerd filter at all; normalised filters never have one.

## Assumptions about the hidden parts

nerdctl refuses to create a second network of the same name, gives new networks an unused default
bridge name, and removes a network by the file its name determines. A failed iptables, containerd or
CNI call changes nothing, apart from the effects modelled explicitly. A failed write of a config
file may truncate it in `BridgeConfig` and `BridgeNames`; in the network protocol it leaves the
network as it was. Build IDs are fresh.
`registryurl.Parse` is a parameter that rejects the empty address. URL components follow section 3
of RFC 3986. containerd searches the operand of `~=` anywhere in the topic, takes several filters as
alternatives, takes an invalid one as matching nothing, and without any delivers everything.

## Model

| member | source | states |
|---|---|---|
| NetworkLocks.MutexTable.EnsureLock | internal/service/network/network.go:110-121 | hands out the mutex on file for the name, or files a new one, and counts the caller |
| NetworkLocks.MutexTable.ReleaseLock | internal/service/network/network.go:123-133 | uncounts a caller and drops the entry of the last one; nothing else changes |
| NetworkLocks.UsersAfter | internal/service/network/network.go:113-130 | each move changes the number of users of a name by exactly what it changes the counter by |
| NetworkLocks.MoveKeepsInv | internal/service/network/network.go:110-133 | every lock move keeps counters exact, all users on the mutex in the table, and one owner per locked mutex |
| NetworkLocks.MutualExclusion | internal/service/network/create.go:93-97 | two activations in the backend section of one name are the same, although entries vanish while their mutex is locked |
| NetworkLocks.QuiescentIsEmpty | internal/service/network/network.go:123-133 | when all activations have finished the table is empty and nothing is locked |
| NetworkSafety.LookupByName | internal/service/network/network.go:50-85 | looking a live network up by its own name finds it or fails, never another one |
| NetworkSafety.ChildStep | internal/service/network/create.go:112-125 | the cleanup's Remove resolves to its Create's network, is handed its mutex, and cannot lock it |
| NetworkSafety.StepKeepsCore | internal/service/network/create.go:73-139 | every step of every interleaving keeps the lock invariant, distinct bridges and live networks under post-create |
| NetworkSafety.StepKeepsRules | internal/service/network/remove.go:44-75 | every step that meets the guard keeps each DROP rule owned by a live labelled network |
| NetworkLiveness.StepDecreases | internal/service/network/create.go:73-139 | every step strictly decreases a global measure |
| NetworkLiveness.StuckIsSelfDeadlock | internal/service/network/create.go:93-125 | if no step is enabled, every unfinished activation is a Create waiting for its own mutex or waits for the mutex of one |
| NetworkLiveness.SelfDeadlockIsPermanent | internal/service/network/create.go:112-125 | such a Create stays deadlocked whatever the others do |
| NetworkLiveness.CleanupNeverRemoves | internal/service/network/create.go:111-119 | a cleanup's Remove never enters the backend section and the network stays |
| NetworkRuns.ReachableIsSafe | internal/service/network/create.go:93-125 | in every reachable state: mutual exclusion per name, exact counters, one mutex per name, distinct bridges |
| NetworkRuns.GuardedRunsOwnTheirRules | internal/service/network/driver/bridge.go:88-133 | in every interleaved run in which pending Removes clear the rules of the Creates of their name, no DROP rule outlives its network |
| NetworkRuns.SequentialRunsOwnTheirRules | internal/service/network/remove.go:15-75 | when requests run one after the other no DROP rule outlives its network, whatever calls fail and even past deadlocked cleanups |
| NetworkRuns.NextRequestIsAlone | internal/service/network/create.go:112-125 | a deadlocked cleanup does not end a sequential run: the next request can start |
| NetworkRuns.RunsAreBounded | internal/service/network/create.go:73-139 | no run is longer than the measure of its first state |
| NetworkRuns.CleanRunsFinish | internal/service/network/create.go:93-139 | without post-create failure a run that cannot go on has finished every request and emptied the table |
| NetworkRuns.CleanupDeadlocks | internal/service/network/create.go:112-125 | from every state in which a cleanup starts and its lookup succeeds, the request deadlocks in three steps |
| NetworkOutcomes.CreateDelivers | internal/service/network/driver/bridge.go:88-123 | over every run: a Create that made its network and returns without having gone to its cleanup leaves it with the requested labels, bridge name and rules |
| NetworkOutcomes.CreateReturns | internal/service/network/create.go:99-109 | a failed CreateNetwork changes nothing; a network without an ID ends the request and stays |
| NetworkOutcomes.CleansUpExactly | internal/service/network/create.go:121-134 | a Create goes to its cleanup exactly when a post-create call fails, its bridge name is taken, or the config has gone |
| NetworkOutcomes.CheckExactly | internal/service/network/create.go:73-84 | a Create goes on exactly if the listing fails or its name does not name exactly one network; otherwise nothing changes |
| NetworkOutcomes.LookupExactly | internal/service/network/network.go:50-85 | the lookup finds the one network with that name or ID prefix, and nothing if there is none or more than one |
| NetworkOutcomes.ResolveExactly | internal/service/network/remove.go:17-33 | a Remove goes on exactly with the one network its query names, if that is not pre-defined; otherwise nothing changes |
| NetworkOutcomes.PredefinedStays | internal/service/network/remove.go:31-33 | over every run: a pre-defined network stays as it is |
| NetworkOutcomes.RemovesOnlyNamed | internal/service/network/remove.go:15-50 | over every run: the network a Remove works on is one that its query, and no other network, matched during the run |
| NetworkOutcomes.RemoveDelivers | internal/service/network/remove.go:44-52 | a network goes away only by a successful RemoveNetwork, after the rules that the labels of the snapshot name have gone |
| NetworkOutcomes.RemoveReturns | internal/service/network/remove.go:44-54 | a Remove returns only with its network gone, after a failed call, or with the config gone |
| NetworkOutcomes.RulesGoOnly | internal/service/network/remove.go:57-95 | a rule goes away only by a Remove of its network whose labels name that protocol, or by a failed insertion of its Create |
| NetworkOutcomes.RulesComeOnly | internal/service/network/driver/bridge.go:103-120 | a rule appears only by a Create of its network that switched connectivity off, for a protocol it asked for |
| NetworkOutcomes.NetworksChangeOnly | internal/service/network/create.go:99-125 | a network appears only by a Create of its name and changes only in the bridge that asked for |
| NetworkWitnesses.DeadlockRun | internal/service/network/create.go:112-134 | one request on an idle host can deadlock itself |
| NetworkWitnesses.UnguardedCreateLosesRule | internal/service/network/remove.go:17-49 | from every state of every run in which a Create breaks the guard, its bridge name being free, a continuation leaves a DROP rule without a network |
| NetworkWitnesses.StaleRemoveLeavesRule | internal/service/network/remove.go:17-49 | for every set of labels that does not clear a request's rules, a run breaks the guard and leaves a DROP rule without a network |
| Iptables.Table.EnsureChain | internal/service/network/driver/iptables.go:60-84 | the chain exists afterwards unless a call failed; succeeds exactly when neither call is refused, an exit status of 1 being ignored |
| Iptables.JumpsNeverDangle | internal/service/network/driver/iptables.go:86-124 | over every run, whatever the FORWARD rules are and whichever calls fail, no rule jumps to a chain that has been deleted |
| Iptables.FailedListingCleansUp | internal/service/network/driver/iptables.go:86-95 | a failed listing deletes an empty chain that nothing jumps to, and nothing else |
| Iptables.Table.SetupChains | internal/service/network/driver/iptables.go:91-107 | succeeds exactly when no call fails and there is a chain; then jump and RETURN are in place; in all cases the chain stays well formed, with the original FORWARD rules and the blocked bridges |
| Iptables.SetUpIs | internal/service/network/driver/iptables.go:91-107 | wherever setup fails, every bridge keeps its status and the chain stays a duplicate-free list of DROPs and at most one RETURN |
| Iptables.Table.AddRule | internal/service/network/driver/iptables.go:113-124 | the whole new state, and success exactly when no call fails; on a well-formed chain the bridge is then blocked, others untouched |
| Iptables.WithRuleIs | internal/service/network/driver/iptables.go:113-124 | the outcome determined by the failing calls determines the blocked bridges: a failed insertion unblocks if its cleanup succeeds |
| Iptables.Table.DelRule | internal/service/network/driver/iptables.go:135-137 | unblocks exactly that bridge unless the call fails |
| Iptables.AddRuleAll | internal/service/network/driver/iptables.go:126-133 | succeeds exactly when every table does; tables before the first failure have the rule, the failing one is as its outcome says, later ones are untouched |
| Iptables.DelRuleAll | internal/service/network/driver/iptables.go:139-146 | succeeds exactly when every table does; tables before the first failure lack the rule, the others are untouched |
| Iptables.VerdictIs | internal/service/network/driver/iptables.go:91-124 | a packet is dropped exactly when it enters and leaves by one blocked bridge; else the original FORWARD rules decide |
| Iptables.RunVerdict | internal/service/network/driver/iptables.go:113-146 | the verdict on every packet after every sequence of calls with arbitrary failures |
| Iptables.LastSuccessIsExact | internal/service/network/driver/iptables.go:113-124 | over runs of the table: the last successful operation decides, under all failures, if and only if the bridge is added at most once |
| Iptables.BlockedAfterAdd | internal/service/network/driver/iptables.go:113-124 | the effects of addRule on the set of blocked bridges are the three the network protocol has, and failures can bring about each |
| Iptables.BlockedAfterDel | internal/service/network/driver/iptables.go:135-137 | delRule takes exactly that bridge out of the set, or fails and changes nothing |
| BridgeConfig.ParseBridgeConfig | internal/service/network/driver/bridge.go:211-249 | finds the first bridge plugin, or there is none |
| BridgeConfig.NamespacedFirst | internal/service/network/driver/bridge.go:322-339 | the file in the namespace's directory is used before the legacy one |
| BridgeConfig.GetNetworkByBridgeName | internal/service/network/driver/bridge.go:251-279 | finds the first network using a non-empty name; the reused decode struct never causes a false match |
| BridgeConfig.NetconfDir.SetBridgeName | internal/service/network/driver/bridge.go:136-182 | succeeds exactly when no call fails, no listed network uses the name and the config has a bridge plugin; then the name is on file, nothing else changed, and names stay distinct; a failed write may truncate that one file |
| BridgeConfig.NetconfDir.GetBridgeName | internal/service/network/driver/bridge.go:184-209 | returns the name on file, or exactly none when a call fails or there is none |
| BridgeConfig.WriteIsExact | internal/service/network/driver/bridge.go:157-172 | the written config differs only in the bridge field of the first bridge plugin and reads back |
| BridgeConfig.BridgeNameIsUnique | internal/service/network/driver/bridge.go:184-209 | a config has one bridge name on file, so reading back after setting returns the set name |
| BridgeNames.StepKeeps | internal/service/network/driver/bridge.go:137-146 | under the directory lock every step keeps names distinct, and a write happens only where check and write in one step would succeed |
| BridgeNames.LockedRunsStayDistinct | internal/service/network/driver/bridge.go:136-182 | names stay pairwise distinct over every interleaving of calls, with networks made and removed in between |
| BridgeNames.UnlockedRunCollides | internal/service/network/driver/bridge.go:138-146 | without exclusion two calls check, write and both succeed with one name |
| BridgeNames.ProtocolStepIs | internal/service/network/driver/bridge.go:136-182 | the step of the network protocol is that single check and write, and fails exactly when it does |
| BridgeNames.SettableExactly | internal/service/network/driver/bridge.go:139-156 | on config files as nerdctl writes them, the call succeeds exactly when the single step does |
| BridgeNames.SetRefines | internal/service/network/driver/bridge.go:157-180 | a successful write of the config file changes the names as the single step does |
| BridgeNames.TruncationRefines | internal/service/network/driver/bridge.go:173-180 | a truncated config file takes away the name of its network and of no other |
| BridgeConfig.BridgeDriver.HandleCreateOptions | internal/service/network/driver/bridge.go:49-86 | takes out exactly the daemon's options in any map order and labels the network if connectivity is off |
| Connect.Container.AddNetworkConfig | internal/service/network/connect.go:83-140 | adds the network to label and annotation and moves the index on, from the label if there is one, or changes nothing |
| Connect.Container.DeleteNet | internal/service/network/connect.go:144-162 | writes back the shorter list and the smaller index |
| Connect.Container.GetNetworkIndex | internal/service/network/connect.go:242-268 | returns the index in force and files it if there was no label |
| Connect.Container.ConnectNetwork | internal/service/network/connect.go:167-216 | attaches the network as eth plus the index, or changes nothing |
| Connect.Container.Connect | internal/service/network/connect.go:35-81 | the effect on the container for each outcome, with 64-bit indices, and which outcome each failure gives |
| Connect.ConnectKeeps | internal/service/network/connect.go:106-162 | list free of duplicates, label and annotation agree, index is length minus one; the interface is eth plus the length before, and fresh; rollback restores |
| Connect.RunKeeps | internal/service/network/connect.go:35-183 | the same over every sequence of Connects |
| Inspect.KeyLookup | internal/service/container/inspect.go:149-173 | the canonical key of a number in range maps to the network at that position |
| Inspect.LookupExactly | internal/service/container/inspect.go:149-173 | every key: unchanged, unless it is unknown-eth and a number in the list, or of 2^63 or more |
| Inspect.InspectUndoesConnect | internal/service/container/inspect.go:161-170 | unknown-eth i maps to the network Connect attached as eth i |
| Inspect.PanicsExactly | internal/service/container/inspect.go:163-169 | the lookup indexes out of range exactly for numbers of 2^63 or more |
| Inspect.UpdateNetworkSettings | internal/service/container/inspect.go:136-147 | in any map order: fails exactly if a lookup indexes out of range; every entry is some endpoint's; none is lost if no two keys get one name |
| Inspect.InspectAttached | internal/service/container/inspect.go:136-173 | for a container whose networks Connect attached: the settings of eth i are shown under the network attached as eth i, one to one |
| Inspect.CanonicalKeysAreInjective | internal/service/container/inspect.go:136-173 | canonical in-range keys over distinct names never collide |
| Inspect.LeadingZeroCollides | internal/service/container/inspect.go:163-169 | keys with a leading zero do collide |
| Credentials.ExactMatchIsEquality | pkg/credential/credential.go:143-145 | comparing printed URLs compares their components |
| Credentials.ApproximateMatchIsCompatible | pkg/credential/credential.go:147-159 | approximate match is same host, and port and path the same where the server has them |
| Credentials.FindMatch | pkg/credential/credential.go:162-173 | a matching key, or no key matches |
| Credentials.GetTarget | pkg/credential/credential.go:121-141 | the address itself if it does not parse, else an exact match, else an approximate one, else nothing |
| Credentials.GetFromEntry | pkg/credential/credential.go:84-104 | for every map order the lookup meets its simple specification; the fallback succeeds exactly for the empty address with credentials under it |
| Credentials.EmptyAddressFallsBack | pkg/credential/credential.go:90-96 | an entry with credentials under the empty address is answered through the fallback |
| BuildCredentials.CredentialCache.StoreAuthConfigs | pkg/credential/credential.go:64-72 | lookups under the build are answered from its credentials, whatever was there; lookups of other builds are unchanged |
| BuildCredentials.CredentialCache.RemoveCredentials | pkg/credential/credential.go:108-119 | reports whether there was an entry; lookups under the build find nothing, those of other builds are unchanged |
| BuildCredentials.CredentialCache.GetCredentials | pkg/credential/credential.go:75-105 | answers from the build's own entry by the lookup specification |
| BuildCredentials.StepKeeps | api/handlers/builder/build.go:44-87 | every step of every handler keeps entries owned by running builds, and running builds' entries present |
| BuildCredentials.LookupsAreScoped | api/handlers/builder/build.go:44-87 | a lookup for a build finds only what it stored, and only before its handler returns |
| BuildCredentials.CacheIsRestored | api/handlers/builder/build.go:53-62 | when all handlers have returned, on any exit paths, the cache is as it began |
| Streams.StreamWriter.Write | api/response/streamwriter.go:58-75 | header if first, then the message, then a flush; nothing after a failed encoding |
| Streams.StreamWriter.WriteError | api/response/streamwriter.go:80-100 | a plain error response if first, else an error message in the stream |
| Streams.StreamWriter.SendErrorResponse | api/response/error.go:31-39 | the status with a body, or for 304 the status alone |
| Streams.StreamWriter.WriteAux | api/response/streamwriter.go:104-121 | header if first, then the auxiliary message, then a flush |
| Streams.PullJobWriter.Write | api/response/streamwriter.go:150-173 | holds back until a message mentions "resolved", then writes through |
| Streams.HeaderOnceAndFirst | api/response/streamwriter.go:58-121 | for every call sequence the status is sent once and first, with an error code only if the error came first, and the body is the messages in order |
| Streams.FlushedAndTyped | api/response/streamwriter.go:58-121 | every streamed message is followed by a flush, nothing else is; the header says JSON unless it is that of a first error 304 |
| Streams.PullRefinesPlain | api/response/streamwriter.go:150-161 | the pull writer's output is the plain writer's with the Writes before "resolved" left out |
| Top.ParseTopOutput | api/handlers/container/top.go:81-152 | fails exactly without titles or lines; else one row per non-blank line in order, with the words of the line in their cells |
| Top.ParseRow | api/handlers/container/top.go:113-146 | values go by title: the command cell has the remaining words, other cells one word, the last value of equal titles counts, the rest is empty |
| Top.UniqueCells | api/handlers/container/top.go:113-146 | without repeated titles: cell i is word i before the command column, the rest of the words joined by single spaces in it, and empty after it |
| Top.WordsOfParts | api/handlers/container/top.go:101-111 | the lines are taken in order, and exactly those without a word are skipped |
| Top.RowKeepsFields | api/handlers/container/top.go:115-146 | the words of a space-joined row are all words of the line, or without a command column one per title |
| Top.RoundTripExactly | api/handlers/container/top.go:115-146 | that holds for every line if and only if no fillable title is repeated |
| Top.TableKeepsExactly | api/handlers/container/top.go:108-149 | over whole outputs: every row of every table keeps the words of its line if and only if no fillable title is repeated |
| ImageRef.PrintUndoesSplit | api/handlers/image/pull.go:85-112 | printing a split reference is the identity exactly when the first separator is @ if and only if a sha256 digest follows |
| ImageRef.SplitUndoesPrint | internal/service/image/pull.go:81-91 | splitting a printed reference gives back name and tag |
| ImageRef.ParseExactly | api/handlers/image/pull.go:85-112 | for every image and tag parameter: the name is the text before the first separator, the tag the parameter if given, else the rest; and exactly when each error is reported |
| ImageRef.PulledExactly | internal/service/image/pull.go:81-91 | the reference that is pulled, with an @ for a sha256 digest and a colon otherwise |
| ImageRemove.GetUsedImages | internal/backend/containerd.go:222-243 | the two maps have exactly the images of active and of other containers |
| ImageRemove.ProtectedExactly | internal/service/image/remove.go:33-42 | an image is protected exactly when a running, pausing or paused container uses it, or without force any container |
| ImageRemove.LayersOfParts | internal/service/image/remove.go:57-59 | the digests are listed image by image |
| ImageRemove.ImageStore.Remove | internal/service/image/remove.go:13-64 | succeeds exactly if the request is allowed, no matched image is in use, and all can be deleted; then deletes exactly these and lists each in order; which error otherwise, and what has been deleted by then |
| Mounts.DirIsParent | internal/service/container/put_archive.go:126-134 | on clean paths, rooted or relative, Dir drops the last component; the root and "." stay |
| Mounts.PartsOfChild | internal/service/container/put_archive.go:107 | cleaning component by component: empty ones and "." are skipped, ".." takes a name away, is dropped at the root, and kept before a relative path |
| Mounts.DotDotIsDir | internal/service/container/put_archive.go:133 | ".." leads to the directory that Dir gives |
| Mounts.IsParentDirIsPrefix | internal/service/container/put_archive.go:126-134 | for every path and mount: yes exactly when the mount is written cleanly and its components are a prefix of the path's; otherwise no on rooted paths and no answer on relative ones |
| Mounts.IsReadOnlyMount | internal/service/container/put_archive.go:106-124 | for every root flag, mount list and path: when it refuses, when it allows and when it never returns |
| Mounts.StopsExactly | internal/service/container/put_archive.go:126-134 | the recursion stops if and only if the path is rooted or the mount, in clean form, is above it; for rooted mounts, if and only if the path is rooted |
| Mounts.RelativePathNeverStops | internal/service/container/put_archive.go:126-134 | the path "a" and the mount "/b" recurse forever |
| Mounts.TrailingSlashIsMissed | internal/service/container/put_archive.go:107-120 | a mount written with a slash at the end is above no path, although its components are a prefix |
| Mounts.HonouredExactly | internal/service/container/put_archive.go:106-124 | read-only mounts are honoured on every rooted path if and only if each is covered by one written cleanly |
| Stats.Run | internal/service/container/stats.go:44-81 | each record's previous readings are those of the record sent before it |
| Stats.EveryRecordLinked | internal/service/container/stats.go:50-68 | id, name and readings of every record, and the previous readings of every full one |
| Stats.FreshStart | internal/service/container/stats.go:40-68 | they are zero at the start and after an empty record |
| Stats.GetSystemCPUUsage | pkg/statsutil/statsutil.go:58-90 | the first cpu line decides: the sum of its seven fields in 64 bits, or malformed; a blank line before it indexes out of range |
| Stats.SumTicks | pkg/statsutil/statsutil.go:77-86 | the wrapped accumulation gives the scaled exact sum modulo 64 bits |
| Stats.ScaleIsExact | pkg/statsutil/statsutil.go:85-86 | the reading is 10^7 per tick if and only if the product fits in 64 bits |
| Stats.SystemDelta | internal/service/container/stats.go:60-68 | consecutive full records give a delta of 10^7 times the tick difference |
| Stats.CpuLineReads | pkg/statsutil/statsutil.go:76-86 | for all seven times below 2^64, the line made of their numerals reads as their sum times 10^9 modulo 2^64 over 100, exact where it fits |
| Stats.DeltaOfLines | internal/service/container/stats.go:60-68 | from two such files to the delta of two consecutive records |
| Stats.BadLineIsMalformed | pkg/statsutil/statsutil.go:73-83 | fewer fields, or one of the seven not a 64-bit numeral, is an error |
| Stats.BlankLinePanics | pkg/statsutil/statsutil.go:66-71 | a blank line before the cpu line indexes out of range; a file without either is malformed |
| Filters.GetFilterFromLegacy | api/types/filter_types.go:55-68 | the values of each key as a set |
| Filters.SortedKeys | api/types/filter_types.go:34-44 | the values ascending and without duplicates, in any map order |
| Filters.LessExactly | api/types/filter_types.go:105 | the order is that of the first difference, a prefix coming first |
| Filters.ToLegacyFormat | api/types/filter_types.go:100-110 | drops empty keys, sorts the rest |
| Filters.AscendingUnique | api/types/filter_types.go:102-107 | map order cannot show in the result |
| Filters.NormalisationIsIdempotent | api/types/filter_types.go:55-110 | converting in and out normalises, and again changes nothing |
| Filters.ContainerdFilters | internal/service/system/events.go:66-86 | the filter of the general pattern, or one per event type, in any map order; as filters they deliver what their patterns select |
| Filters.SubscriptionConfinedExactly | internal/service/system/events.go:66-86 | over topics with the prefix at the start if at all: only topics that start with it are delivered if and only if there is no type list, or it is not empty and no valid type escapes |
| Filters.NoSubscriptionIsAnchored | internal/service/system/events.go:66-86 | over all topics, only ones that start with the prefix are delivered if and only if nothing is: there are types and none is a valid pattern |
| Filters.GeneralDelivers | internal/service/system/events.go:67-69 | the general filter delivers exactly the topics that contain the prefix |
| Filters.GeneralDeliversOthers | internal/service/system/events.go:67-69 | it delivers "/x/dockercompat" and "/dockercompatible" |
| Filters.NormalFiltersAreConfined | internal/service/system/events.go:66-86 | normalised filters never give an empty list, and over those topics deliver only ones that start with the prefix if no type has alternatives |
| Topics.TypeConfinedExactly | internal/service/system/events.go:77-78 | among topics with the prefix at the start if at all, the pattern of a type matches only ones that start with it if and only if no later alternative can be spelled without it |
| Topics.SlashFreeConfinedExactly | internal/service/system/events.go:77-78 | for a type without slashes, if and only if it has no alternatives |
| Topics.NeverAnchored | internal/service/system/events.go:67-78 | every valid pattern matches a topic that does not start with the prefix |
| Topics.AlternativeSelectsAll | internal/service/system/events.go:77-78 | a type whose second alternative is a dot matches every topic |
| Topics.LiteralExactly | internal/service/system/events.go:77-78 | the pattern of a type matches exactly the topics that contain the prefix and the type if and only if the type has no special character |

## Left out

- Topics.TypeConfinedExactly: types with regular-expression operators other than `.`, `*` and `|`, with quotes, backslashes or newlines.
- Topics.SlashFreeConfinedExactly: the same types.
- Topics.LiteralExactly: the same types.
- Filters.SubscriptionConfinedExactly: the same types.
- Filters.NormalFiltersAreConfined: the same types.
- Filters.NoSubscriptionIsAnchored: the same types.
- Connect.Container.Connect: lists of 2^63 networks, which Go cannot hold.
- ImageRemove.ImageStore.Remove: a failed digest enumeration is an image with no layers.
- Iptables.Table.AddRule: other tools changing the chains at the same time, apart from creating the empty chain.
- BridgeConfig.GetNetworkByBridgeName: case-insensitive and repeated JSON keys.
- nerdctl changing networks outside the daemon while a request runs.
- The other branches of the HTTP handlers, request decoding and error-to-status mapping.
- Starting, stopping, attaching, logs, exec, archives, volumes and image load: one status check in front of a hidden backend, or streaming I/O.
- Build options and buildctl arguments, version, Rego and peer-credential middleware, process start-up and sockets.
- Cgroup metric translation: field copying.
- The event subscription goroutine, timers and channels.
