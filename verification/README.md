# Verified models of the workflows platform

This project models the parts of the platform where the most can go wrong between one function and the next,
and proves what they keep. Verify everything with `dafny verify dfyconfig.toml`.

**Schema stitching** (`Json`, `Stitching`, `SchemaMeaning`, `SchemaPreservation`, `ArgumentSchemas`). The service
moves the JSON Schema of every template parameter under `/properties/<name>` and rewrites local `$ref` strings.
A schema's meaning is what it unfolds to when its references are followed (section 8.2.3.1 of JSON Schema Core,
draft 2020-12; pointers by sections 3, 4 and 6 of RFC 6901). The main theorems say exactly which schemas and
exactly which parameter names keep their meaning; schemas that refer to `#`, or that quote a `$ref` in
`default`, `enum` or `const`, do not.

**Token refresh** (`Broker*`, `Daemon`). The broker is a machine over atomic steps: every await of
`get_or_refresh_token` and of the lock-cleanup loop lets other steps in between; time, cache expiry, errors and
dropped requests are steps too. Mutual exclusion per subject, fresh rows, where every returned token comes from and
the spacing of exchanges are proved for all runs, some on the assumption that cleanup removes only unclaimed locks.
That assumption is shown to be exactly what is needed, and the guard in the code not to give it. The daemon is a
class that serves one request after another; every failure of provider and database is allowed, and what it sends,
replies and holds in memory is told from the answers it gets.

**Task graphs** (`TaskMaps`, `TaskGraphs`, `TaskFlow`, `TaskPipeline`). The service inverts children to parents, the
browser inverts them back and walks the tree without remembering where it has been. `DrawWorkflow` puts both sides
together and proves what is drawn for every workflow in which no cycle is reached from a root, which is exactly when
the walk ends.

**Reconcilers** (`Sessionspaces`, `SessionspacesRuns`, `SessionTables`, `IdentitySync`, `LdapIdentities`). Both
drive a cluster towards a desired state, one with failures item by item and a memory of what it did, the other
stopping at the first failure. Invariants, convergence and exact call counts hold for all runs, all orders of
iteration and all failures. `SessionTables` and `LdapIdentities` model how the desired states come about.

**Printers and parsers** (`Visits`, `WorkflowIds`, `ScanRanges`, `ScanRangeInputs`). Round trips hold with their
exact conditions, also across the two languages that read the same text.

**Pages and rows** (`Pagination`, `PaginationRuns`, `RowPartitions`). The pagination hook against a fixed list, event
by event, with the events that break it told exactly; and the row ranges of the matrix example.

`Wrappers`, `Text`, `Decimal` and `Sorting` hold what the others share. Code that changes objects, arrays or
dictionaries step by step is modelled by classes and loops, proved against specification functions; the theorems are
about those functions.

What the code does where its names or messages suggest otherwise:

- `isStrictPositiveInteger` accepts zero, so a scan range may start at 0; the input then shows an empty start, which
  is not read back.
- The lock cleanup asks whether the cache entry is absent, which is also so while a refresh is running.
- A namespace whose ConfigMap fails is not remembered, so it is not deleted when its session ends.
- `changeLimit` resets the history but not the number of pages.
- The edge ids of the task graph do not tell `a-b` to `c` from `a` to `b-c`.

## Model

| member | source | states |
|---|---|---|
| SchemaPreservation.PreservedExactly | backend/graph-proxy/src/graphql/parameter_schema.rs:28-63 | Under a plain name the stitched copy unfolds, to every depth, as the parameter's own schema does, if and only if each reference into its own document begins with `#/` or leads nowhere in either document, and no data holds a local `$ref` |
| SchemaPreservation.PreservedExactlyWhenMovable | backend/graph-proxy/src/graphql/parameter_schema.rs:28-63 | If references into the document are written `#`, empty or from `#/`, meaning is kept if and only if none names the whole document and no data holds a local `$ref`, whatever is stitched beside it |
| SchemaPreservation.DetachedIsPreserved | backend/graph-proxy/src/graphql/parameter_schema.rs:28-63 | A schema without references into its own document keeps its meaning under any name |
| SchemaPreservation.NamesExactlyPlain | backend/graph-proxy/src/graphql/parameter_schema.rs:28-63 | The names under which stitching keeps the meaning of every movable schema are exactly those without `/`, `~` and `%` |
| SchemaPreservation.MovableIsPreserved | backend/graph-proxy/src/graphql/parameter_schema.rs:28-63 | Stitching keeps the meaning of every movable schema under a plain name, whatever else is stitched beside it |
| SchemaPreservation.SchemasThatChange | backend/graph-proxy/src/graphql/parameter_schema.rs:33-37 | Two schemas whose meaning is lost: one that refers to `#`, and one whose default value looks like a reference |
| SchemaPreservation.UnplainNameLosesReference | backend/graph-proxy/src/graphql/parameter_schema.rs:33-37 | Under any name that is not plain, a schema that refers to its own `#/x` loses that reference |
| SchemaPreservation.UnfoldKept | backend/graph-proxy/src/graphql/parameter_schema.rs:28-50 | What is movable into a document means the same read from its own document and, rewritten, from the document that houses the schema |
| SchemaPreservation.FollowReferenceKept | backend/graph-proxy/src/graphql/parameter_schema.rs:33-37 | Following a reference commutes with moving it below `/properties/<name>`, at every depth of unfolding |
| SchemaPreservation.KeptIsMovable | backend/graph-proxy/src/graphql/parameter_schema.rs:28-50 | Given that `#` reads differently in the two documents, what reads the same at one level of unfolding is movable: the conditions are necessary, not only sufficient |
| SchemaPreservation.UntouchedData | backend/graph-proxy/src/graphql/parameter_schema.rs:30-47 | Data comes through the rewriting unchanged if and only if it holds no local `$ref` string |
| SchemaPreservation.RootsDiffer | backend/graph-proxy/src/graphql/parameter_schema.rs:52-62 | Where the stored copy unfolds like the schema, the served document does not, so a reference to the whole document reads differently |
| SchemaPreservation.NameMisread | backend/graph-proxy/src/graphql/parameter_schema.rs:34-36 | Once decoded and split, the first token of a name that is not plain is not that name |
| SchemaMeaning.RelocatedReference | backend/graph-proxy/src/graphql/parameter_schema.rs:33-37 | A rewritten reference resolves to `properties`, the name, and then exactly the tokens of the original pointer |
| SchemaMeaning.RewritingCommutesWithPointers | backend/graph-proxy/src/graphql/parameter_schema.rs:30-47 | Following a pointer and rewriting commute: the same kind of place, holding the rewritten value |
| SchemaMeaning.StitchedHouses | backend/graph-proxy/src/graphql/parameter_schema.rs:52-62 | The served document holds, for every pointer, the rewritten schema below `/properties/<name>` |
| Stitching.DoUpdate | backend/graph-proxy/src/graphql/parameter_schema.rs:30-47 | The in-place walk over objects and arrays, in any order of members, yields the rewritten value |
| Stitching.Schema.UpdateRefs | backend/graph-proxy/src/graphql/parameter_schema.rs:28-49 | The schema object holds the rewritten value afterwards |
| ArgumentSchemas.ArgumentSchema.AddParameter | backend/graph-proxy/src/graphql/parameter_schema.rs:67-104 | Stores under the parameter's name the JSON its annotation `workflows.diamond.ac.uk/parameter-schema.<name>` reads as, or without annotation the inferred schema; fails exactly if the annotation is no JSON, names its key and stores nothing |
| ArgumentSchemas.ArgumentSchema.AddAll | backend/graph-proxy/src/graphql/parameter_schema.rs:148-153 | Adds the parameters without a value source in order, each with its annotated or inferred schema, the last of a name winning, and stops at the first unreadable annotation |
| ArgumentSchemas.New | backend/graph-proxy/src/graphql/parameter_schema.rs:143-172 | Exactly the names of the parameters without a value source, from the arguments and then the first template of the entrypoint; each name holds what the annotation of its last parameter reads as, or the fields inferred from that parameter; fails exactly if one has an annotation that is no JSON, and names the first such key |
| ArgumentSchemas.FindTemplate | backend/graph-proxy/src/graphql/parameter_schema.rs:156-161 | Finds the first template that is named like the entrypoint |
| ArgumentSchemas.InferredIsMovable | backend/graph-proxy/src/graphql/parameter_schema.rs:106-140 | An inferred schema, with any description, options and default, is movable and has no reference into its own document |
| ArgumentSchemas.RequiredAreTheProperties | backend/graph-proxy/src/graphql/parameter_schema.rs:52-62 | What is served is of type object, and its `required` list names exactly the keys of `properties`, in ascending order |
| ArgumentSchemas.ServedMeaning | backend/graph-proxy/src/graphql/parameter_schema.rs:52-62 | What is served for a parameter means what its schema means: under any name when inferred; under a plain name exactly when movable into the document if annotated |
| BrokerLocks.MutualExclusion | backend/auth-broker/src/state.rs:126-204 | In every run whose cleanup removes only unclaimed locks, at most one request per subject is between its second look into the cache and the insertion |
| BrokerLocks.LocksStayInOrder | backend/auth-broker/src/state.rs:134-139 | Every step keeps each claimed lock the one in the table, and each lock with one holder; a sweep does if nobody claims the lock |
| BrokerSweep.SweepSafeExactlyWhenUnclaimed | backend/auth-broker/src/state.rs:93-108 | At any such state, removing a subject's lock keeps refreshes one at a time in all that may follow if and only if no request holds a clone it still works under |
| BrokerSweep.CleanupAsWrittenClashes | backend/auth-broker/src/state.rs:93-108 | With the guard the loop has, every subject with a stored token has a run in which two requests refresh at once and the second presents a token already replaced |
| BrokerOrigins.ReturnedTokensAreProper | backend/auth-broker/src/state.rs:126-204 | In every run, a returned token was issued to the requested subject, and after the request arrived: it is the one that an exchange by this very request issued, or was found in the cache, put there less than 300 seconds before by a request for that subject, with more than 30 seconds left |
| BrokerOrigins.CachedTokensWerePut | backend/auth-broker/src/state.rs:126-204 | In every run, what the cache holds for a subject was put there by a request for it that had got the token by an exchange |
| BrokerOrigins.MintedTokensAreNotShared | backend/auth-broker/src/state.rs:126-204 | In every run, no two requests return the same token as newly exchanged |
| BrokerOrigins.FreshTokensAreUsed | backend/auth-broker/src/state.rs:126-146 | In every run, a request that looks into the cache while it holds a fresh token of its subject never goes to the provider |
| BrokerTokens.TokensStayProper | backend/auth-broker/src/state.rs:126-204 | Every step keeps rows, cache and requests in tokens of the right subject, with expiries computed from the reported lifetimes |
| BrokerRows.RowsHoldTheLatest | backend/auth-broker/src/state.rs:148-191 | In every careful run, once nothing is to be written the row is the newest refresh token if and only if none was dropped, and what is presented is what the row holds |
| BrokerRows.ExchangeKeepsRows | backend/auth-broker/src/state.rs:158-160 | An exchange changes no row, and leaves a rotated token pending with its request and the newest of its subject, and of no other |
| BrokerRows.WriteKeepsRows | backend/auth-core/src/database.rs:110-142 | The upsert of a rotated token makes the row the newest token of its subject again |
| BrokerRows.AbortKeepsRows | backend/auth-broker/src/state.rs:156-190 | An error or dropped request at any point keeps the account of which rows are the newest |
| BrokerRows.DropsExactly | backend/auth-broker/src/state.rs:156-190 | Nothing but an abort between exchange and write loses a new refresh token, and it loses that of its own subject |
| BrokerRows.StoredIsNewest | backend/auth-broker/src/state.rs:148-191 | In every careful run without such an abort, each row is the newest refresh token once nothing is to be written, and every exchange presents the newest |
| BrokerTimes.ExchangesAreSpaced | backend/auth-broker/src/state.rs:23-28 | In every careful run without eviction for space, after a refresh of lifetime L the next exchange for the subject comes at least min(L - 30, 300) seconds after its expiry was computed |
| Daemon.RouterState.InjectToken | backend/auth-core/src/middleware/inject_token.rs:19-63 | Refresh if expired, copy the request, forward, collect the response, retry once: the new state and reply are those of the specification, with an early return for each step that can fail |
| Daemon.RouterState.RefreshAndPersist | backend/auth-daemon/src/state.rs:86-99 | Exchange, then the row, then memory; a failed exchange or write leaves the token in memory as it was |
| Daemon.RefreshExactly | backend/auth-daemon/src/state.rs:86-99 | A refresh that succeeds leaves the new access token in memory, living for its lifetime or 60 seconds, and in memory and row the new refresh token or else the presented one; any other leaves both |
| Daemon.ServedExactly | backend/auth-core/src/middleware/inject_token.rs:19-63 | How often a request refreshes, which tokens it sends and what it replies, told from its token and the answers alone |
| Daemon.HeldExactly | backend/auth-core/src/middleware/inject_token.rs:19-63 | What memory holds after a request, told from its token and the answers alone: access token, expiry and refresh token of its last refresh that succeeded, or what it held before if none did |
| Daemon.HoldsLastObtained | backend/auth-daemon/src/state.rs:80-99 | In every run of requests, memory holds the access token that the last refresh to succeed brought, with the expiry computed then |
| Daemon.FirstBearerExactly | backend/auth-core/src/middleware/inject_token.rs:19-63 | In every run, a request first sends the access token last obtained while that has not expired; otherwise the one it has just obtained, or nothing |
| Daemon.ServingKeeps | backend/auth-core/src/middleware/inject_token.rs:19-63 | Each request makes at most two refreshes and forwards at most twice, always with a token; memory and row agree afterwards, whatever fails |
| Daemon.DaemonStaysConsistent | backend/auth-core/src/middleware/inject_token.rs:19-63 | Over every run of requests: memory equals the row, and each refresh presents what the one before it kept |
| Daemon.StoredIsNewest | backend/auth-daemon/src/state.rs:86-99 | If every rotated token could be written, the row is the newest token the provider has issued |
| TaskPipeline.DrawWorkflow | frontend/workflows-lib/lib/utils/tasksFlowUtils.ts:38-125 | When no cycle is reached from a root: each reached node but the redundant roots is drawn once, edges are the listed children of reached nodes, each under the id `e<parent>-<child>`, all of them if and only if no two different ones read alike as `<parent>-<child>`, and the outputs are the reached childless nodes; in an acyclic workflow every node is reached |
| TaskMaps.GenerateRelationshipMap | backend/graph-proxy/src/graphql/workflows.rs:529-541 | Each node is recorded under each of its children as often as it lists that child, in any order of the map |
| TaskMaps.IntoTasks | backend/graph-proxy/src/graphql/workflows.rs:544-556 | One task a node, whose parents are the nodes that list it, as often as they do |
| TaskMaps.BuildTaskTree | frontend/workflows-lib/lib/utils/tasksFlowUtils.ts:38-57 | Fails exactly if some task names an unknown parent; otherwise every task has the children the parents lists give it, and the roots are the tasks without parents |
| TaskMaps.InvertingTwice | backend/graph-proxy/src/graphql/workflows.rs:529-556 | Children to parents and back gives each task its node's children as a multiset, restricted to known nodes; the browser meets no unknown id |
| TaskGraphs.RankedExactlyWithoutCycle | frontend/workflows-lib/lib/utils/tasksFlowUtils.ts:77-121 | The part of a graph that is reached from the starting points can be ranked, with children below parents, if and only if no cycle is reached from them |
| TaskGraphs.WalkEndsExactlyWithoutCycle | frontend/workflows-lib/lib/utils/tasksFlowUtils.ts:77-121 | The walk without visited set nests its calls no deeper than some bound if and only if no cycle is reached from where it starts |
| TaskGraphs.WalkWithoutEnd | frontend/workflows-lib/lib/utils/tasksFlowUtils.ts:117-119 | On a task below a root that is its own child, the calls nest to every depth |
| TaskGraphs.AcyclicExactlyRanked | frontend/workflows-lib/lib/utils/tasksFlowUtils.ts:77-121 | A graph is acyclic if and only if all its nodes can be ranked with children below parents |
| TaskFlow.Drawing.Traverse | frontend/workflows-lib/lib/utils/tasksFlowUtils.ts:77-121 | The recursive walk fills nodes and edges exactly as the sequence of visits prescribes, and ends |
| TaskFlow.Drawing.Draw | frontend/workflows-lib/lib/utils/tasksFlowUtils.ts:80-115 | One visit adds the task's node and its edges, each only if not there |
| TaskFlow.Outputs.Traverse | frontend/relay-workflows-lib/lib/views/BaseSingleWorkflowView.tsx:47-65 | The recursive walk collects outputs exactly as the sequence of visits prescribes, and ends |
| TaskFlow.WalkIsExact | frontend/workflows-lib/lib/utils/tasksFlowUtils.ts:77-121 | The walk visits exactly the tasks reachable from the roots, along exactly the reachable edges |
| TaskFlow.SortedAscends | frontend/workflows-lib/lib/utils/tasksFlowUtils.ts:78 | The walk takes the tasks of each level in ascending order |
| TaskFlow.NodesAreExact | frontend/workflows-lib/lib/utils/tasksFlowUtils.ts:80-103 | De-duplication by search lists each visited task that is not redundant exactly once |
| TaskFlow.EdgesAreExact | frontend/workflows-lib/lib/utils/tasksFlowUtils.ts:104-115 | Every visited connection has an edge of the id `e<parent>-<child>`, every edge is a visited connection under that id, no id occurs twice |
| TaskFlow.EdgeIdsExactly | frontend/workflows-lib/lib/utils/tasksFlowUtils.ts:105 | Two edges have the same id if and only if they read alike as `<parent>-<child>` |
| TaskFlow.AllDrawnUnlessIdsCollide | frontend/workflows-lib/lib/utils/tasksFlowUtils.ts:105-114 | Every connection is drawn if and only if no two different connections read alike as `<parent>-<child>` |
| TaskFlow.OutputsAreExact | frontend/relay-workflows-lib/lib/views/BaseSingleWorkflowView.tsx:51-61 | Every visited childless task is an output exactly once |
| TaskPipeline.TreeAgrees | frontend/workflows-lib/lib/utils/tasksFlowUtils.ts:38-57 | The browser's tree is the graph of the service's nodes |
| TaskPipeline.WalkEndsExactly | frontend/workflows-lib/lib/utils/tasksFlowUtils.ts:38-121 | For the nodes of any workflow, the browser's walk ends if and only if no cycle is reached from a node that no node lists |
| TaskPipeline.ReachedFromRoots | frontend/workflows-lib/lib/utils/tasksFlowUtils.ts:38-57 | In an acyclic workflow every node is reached from a node that no node lists, and no cycle is |
| TaskPipeline.CycleOutOfReach | frontend/workflows-lib/lib/utils/tasksFlowUtils.ts:38-57 | Two nodes that list each other: the workflow has a cycle, none is reached, and neither node is |
| TaskPipeline.AnEdgeIsLost | frontend/workflows-lib/lib/utils/tasksFlowUtils.ts:104-114 | An acyclic workflow of four nodes in which one of two listed children is left without its edge |
| TaskPipeline.EdgesAreRight | frontend/workflows-lib/lib/utils/tasksFlowUtils.ts:104-115 | Drawn edges are listed children of reached nodes, and their targets are drawn; none is missing if and only if no two different ones read alike as `<parent>-<child>` |
| TaskPipeline.RedundantExactly | frontend/workflows-lib/lib/utils/tasksFlowUtils.ts:59-64 | The tasks left out are exactly the DAG and Steps nodes that no node lists |
| Sessionspaces.Reconciler.UpdateSessionspace | backend/sessionspaces/src/main.rs:130-165 | One name gets its new memory, cluster state and calls as its own case says; no other name is touched |
| Sessionspaces.Reconciler.UpdateSessionspaces | backend/sessionspaces/src/main.rs:101-126 | A tick treats every name by itself: its outcome and its calls depend on that name alone, in any order and whatever fails elsewhere |
| Sessionspaces.Reconciler.DeleteNamespace | backend/sessionspaces/src/resources/namespace.rs:14-30 | Succeeds if the namespace is gone or was not there |
| Sessionspaces.Reconciler.ApplyNamespace | backend/sessionspaces/src/resources/namespace.rs:34-60 | Creates the namespace unless it exists; an existing one stays as it is |
| Sessionspaces.Reconciler.ApplyConfigMap | backend/sessionspaces/src/resources/config_map.rs:17-77 | Fails without a namespace; otherwise the ConfigMap is the rendering of the session |
| Sessionspaces.RenderDetermines | backend/sessionspaces/src/resources/config_map.rs:28-54 | Sessions with the same ConfigMap agree in code, numbers, instrument, dates, group ID and members text |
| Sessionspaces.CallsExactly | backend/sessionspaces/src/main.rs:130-165 | For one name the needed calls are made in order up to the first that fails, and no others |
| SessionspacesRuns.DesiredExactly | backend/sessionspaces/src/main.rs:84-88 | A name is desired as fetched, or else as among the static sessions |
| SessionspacesRuns.Loop | backend/sessionspaces/src/main.rs:79-92 | The tick loop computes the specified world, and its log falls into the calls of one tick after the other; a tick whose fetch fails makes no call |
| SessionspacesRuns.FailedFetchesDoNothing | backend/sessionspaces/src/main.rs:82-91 | A tick whose fetch fails, anywhere in a run, makes no difference to memory and cluster at the end |
| SessionspacesRuns.AlwaysRemembered | backend/sessionspaces/src/main.rs:101-165 | On every run from any cluster, whatever fails: what is remembered is in the cluster, rendered as remembered |
| SessionspacesRuns.SettlesExactly | backend/sessionspaces/src/main.rs:136-163 | A tick settles a name if and only if it was settled or all its calls succeed; calls are made exactly for unsettled names, and settled ones do not change |
| SessionspacesRuns.FailureFreeTick | backend/sessionspaces/src/main.rs:101-165 | A failure-free tick leaves exactly the desired sessions remembered and rendered, and beside them exactly the namespaces not remembered before |
| SessionspacesRuns.NothingLeftToDo | backend/sessionspaces/src/main.rs:154-162 | Once the desired sessions are remembered, a tick makes no call and changes nothing |
| SessionspacesRuns.SettledAtTheEnd | backend/sessionspaces/src/main.rs:136-163 | While every fetch that succeeds brings the same sessions, a name is settled at the end of a run if and only if it was settled before or in some tick that fetched all the calls made for it succeeded |
| SessionspacesRuns.ConvergesExactly | backend/sessionspaces/src/main.rs:101-165 | While every fetch that succeeds brings the same sessions, a run ends with exactly these if and only if each name remembered or desired was settled before or once had all its calls succeed |
| SessionspacesRuns.ConvergesNameByName | backend/sessionspaces/src/main.rs:101-165 | So any run in which each name remembered or desired has a tick that fetches and lets its calls through ends with exactly the desired sessions, however failures fall together |
| SessionspacesRuns.NoOrphansExactlyWhenKnown | backend/sessionspaces/src/main.rs:136-144 | After a failure-free tick the cluster holds the desired namespaces and no others if and only if every namespace before was remembered or is desired |
| SessionspacesRuns.OrphanAppearsExactly | backend/sessionspaces/src/main.rs:145-153 | A tick makes a namespace that nobody remembers if and only if its creation succeeds and its ConfigMap fails |
| SessionspacesRuns.OrphansStay | backend/sessionspaces/src/main.rs:136-164 | Such a namespace is never removed while its session is not desired again |
| SessionspacesRuns.ANamespaceIsLeft | backend/sessionspaces/src/main.rs:145-153 | A run in which a namespace outlives its session for good |
| SessionTables.New | backend/sessionspaces/src/permissionables/mod.rs:102-147 | The join that removes entries as it reads: one session a name, its last row joined with what the rows before it have left |
| SessionTables.ReadExactly | backend/sessionspaces/src/permissionables/mod.rs:110-144 | A session loses its group ID exactly if an earlier row has its name, and its direct members exactly if an earlier row has its id |
| SessionTables.PlainExactlyWhenDistinct | backend/sessionspaces/src/permissionables/mod.rs:102-147 | The join equals the plain one for all tables if and only if no two rows share an id or a name |
| SessionTables.NameReads | backend/sessionspaces/src/permissionables/mod.rs:111-114 | The namespace of a session reads code, number, hyphen, visit |
| SessionTables.NamesTellVisitsApart | backend/sessionspaces/src/permissionables/mod.rs:111-114 | Sessions with alphabetic codes share a name if and only if they are the same visit |
| SessionTables.MergeInto | backend/sessionspaces/src/permissionables/static_sessions.rs:100-106 | Static sessions are added under exactly the names not fetched; no fetched session is replaced |
| IdentitySync.Sync | backend/identity-mapper/src/identity_mapper/_sync_ldap_to_kubernetes.py:10-70 | In any iteration order it completes exactly if no call fails, after exactly as many calls as uids differed, and then agrees with LDAP; cut short anywhere, each call made has lowered the distance by one, nothing is deleted before all missing identities are created, and nothing updated before all surplus ones are deleted |
| IdentitySync.CreateAll | backend/identity-mapper/src/identity_mapper/_sync_ldap_to_kubernetes.py:41-50 | The first loop creates exactly the missing identities, one call each, or stops at the first failing call |
| IdentitySync.DeleteAll | backend/identity-mapper/src/identity_mapper/_sync_ldap_to_kubernetes.py:52-55 | The second loop deletes exactly the surplus identities |
| IdentitySync.UpdateAll | backend/identity-mapper/src/identity_mapper/_sync_ldap_to_kubernetes.py:57-70 | The third loop patches exactly the identities that differ |
| IdentitySync.OneCallOneStep | backend/identity-mapper/src/identity_mapper/_sync_ldap_to_kubernetes.py:15-24 | Giving a differing uid its LDAP state takes it and nothing else off what is to be done, and lowers the distance by exactly one |
| IdentitySync.ZeroDistanceExactly | backend/identity-mapper/src/identity_mapper/_sync_ldap_to_kubernetes.py:26-30 | Nothing is to be done if and only if cluster and LDAP agree |
| IdentitySync.ListingYieldsView | backend/identity-mapper/src/identity_mapper/_lookup_identities_in_kubernetes.py:6-22 | Listing the objects in any order yields the identity stored under each uid's name |
| IdentitySync.Run | backend/identity-mapper/src/identity_mapper/__main__.py:23-36 | A whole run completes if and only if none of its calls fails, and then the cluster agrees with LDAP |
| IdentitySync.RunAgainAndAgain | backend/identity-mapper/src/identity_mapper/__main__.py:23-36 | Runs cut short anywhere together make no more calls than uids differed at first; once one completes, exactly that many, and later runs make none |
| LdapIdentities.LookupIdentities | backend/identity-mapper/src/identity_mapper/_lookup_identities_in_ldap.py:8-81 | The loops over accounts, groups, members and users yield the specified identities |
| LdapIdentities.CollectGroups | backend/identity-mapper/src/identity_mapper/_lookup_identities_in_ldap.py:47-65 | Each known user gets the IDs of the usable groups that list it, as often as they do |
| LdapIdentities.SupplementaryExactly | backend/identity-mapper/src/identity_mapper/_lookup_identities_in_ldap.py:69-74 | Supplementary groups are sorted, and are exactly the usable groups that list the user, without the primary one |
| LdapIdentities.SupplementaryTimes | backend/identity-mapper/src/identity_mapper/_lookup_identities_in_ldap.py:49-74 | A group occurs among the supplementary ones as often as usable groups of its ID list the user; the primary one does not |
| LdapIdentities.UsersExactly | backend/identity-mapper/src/identity_mapper/_lookup_identities_in_ldap.py:26-35 | The users are exactly the accounts whose three attributes are present, not empty and not zero |
| LdapIdentities.AccountExactly | backend/identity-mapper/src/identity_mapper/_lookup_identities_in_ldap.py:8-81 | From accounts and groups to the result: the last usable account of a uid number gets that number, its primary group, and in ascending order every other group as often as usable groups of that ID list it |
| LdapIdentities.GroupOrderIsIrrelevant | backend/identity-mapper/src/identity_mapper/_lookup_identities_in_ldap.py:49-74 | The order in which LDAP returns the groups does not matter |
| LdapIdentities.LastUserDecides | backend/identity-mapper/src/identity_mapper/_lookup_identities_in_ldap.py:67-79 | There is an identity for exactly the uids of the users, decided by the last user of the uid and keyed by that uid |
| Visits.CapturesExactly | backend/graph-proxy/src/graphql/mod.rs:245-248 | The captures of the visit pattern are exactly its matches, and a text matches in one way at most |
| Visits.ParseExactly | backend/graph-proxy/src/graphql/mod.rs:250-266 | Every outcome of parsing, including which error, told from the text alone: each number must be ASCII digits below 4294967296 |
| Visits.ParseOfShow | backend/graph-proxy/src/graphql/mod.rs:235-267 | Parsing undoes printing if and only if the code is alphabetic |
| Visits.ShowOfParse | backend/graph-proxy/src/graphql/mod.rs:235-267 | Printing undoes parsing if and only if neither number has a leading zero |
| Visits.ShowTellsApart | backend/graph-proxy/src/graphql/mod.rs:235-243 | Visits with alphabetic codes are told apart by their texts |
| Visits.DigitsInCodesClash | backend/graph-proxy/src/graphql/mod.rs:235-243 | A digit in a code makes two visits share one text |
| Visits.FrontendAgrees | frontend/workflows-lib/lib/utils/commonUtils.ts:4-14 | On a text the backend accepts, the frontend reads the same visit if and only if the code is two lower-case letters and no number starts with zero, and otherwise none |
| Visits.FrontReadsExactly | frontend/workflows-lib/lib/utils/commonUtils.ts:4-14 | The frontend reads a visit from exactly the texts that begin with one |
| Visits.BackendAcceptsExactly | backend/graph-proxy/src/graphql/mod.rs:245-266 | Of the texts the frontend reads, the backend accepts exactly those that end where the frontend stops and whose numbers fit, reading the same visit; it finds no visit exactly if something other than digits follows |
| Visits.FrontendIgnoresTheRest | frontend/workflows-lib/lib/utils/commonUtils.ts:4 | A text from which the frontend reads a visit and which the backend rejects |
| WorkflowIds.RecoversExactly | backend/graph-proxy/src/graphql/workflows.rs:580-597 | The lookup recovers visit, name and uid from the ID if and only if the code is alphabetic and neither name nor uid has a colon |
| WorkflowIds.IdsTellApart | backend/graph-proxy/src/graphql/workflows.rs:83-90 | Distinct workflows of that kind have distinct IDs |
| WorkflowIds.ColonsClash | backend/graph-proxy/src/graphql/workflows.rs:83-90 | A colon in a name lets two workflows share one ID |
| WorkflowIds.FrontendRecoversExactly | frontend/workflows-lib/lib/utils/commonUtils.ts:16-34 | The frontend recovers the workflow if and only if the code is two lower-case letters, both numbers are positive and there is no colon in name and uid |
| WorkflowIds.VisitAloneExactly | frontend/workflows-lib/lib/utils/commonUtils.ts:30-32 | A visit text alone yields the visit without name and uid, exactly if the frontend reads it |
| WorkflowIds.NeverDisagree | frontend/workflows-lib/lib/utils/commonUtils.ts:16-34 | For any ID the backend accepts, the frontend finds the same workflow or nothing |
| WorkflowIds.BackendFindsExactly | backend/graph-proxy/src/graphql/workflows.rs:580-597 | Of the IDs in which the frontend finds a workflow, the backend accepts exactly those whose first part ends with the visit and whose numbers fit, and looks for the same workflow; one without name and uid it rejects |
| WorkflowIds.FrontendFindsExactly | frontend/workflows-lib/lib/utils/commonUtils.ts:16-34 | The frontend finds a visit in exactly the IDs whose first part begins with one |
| ScanRanges.ParseExcludedScans | frontend/workflows-lib/lib/utils/validationUtils.ts:7-42 | The loops over parts and ranges with their errors yield the specified result |
| ScanRanges.BracketsAreIgnored | frontend/workflows-lib/lib/utils/validationUtils.ts:8 | A square bracket anywhere in the text makes no difference; a text without them is taken as it is |
| ScanRanges.PartsExactly | frontend/workflows-lib/lib/utils/validationUtils.ts:8-13 | The parts are exactly the longest stretches without white space and commas of the text without brackets, in order; trimming changes none |
| ScanRanges.ParsedExactly | frontend/workflows-lib/lib/utils/validationUtils.ts:7-42 | Parsing succeeds if and only if every part is a number or a strictly increasing range; the result is strictly increasing and holds exactly the numbers denoted |
| ScanRanges.ErrorExactly | frontend/workflows-lib/lib/utils/validationUtils.ts:17-39 | The message is told by the first invalid part: a range that does not increase, or neither number nor range |
| ScanRanges.ReadPartExactly | frontend/workflows-lib/lib/utils/validationUtils.ts:18-38 | A part is accepted exactly if valid, and stands for exactly the numbers it denotes |
| ScanRanges.ParsedOfPrinted | frontend/workflows-lib/lib/components/template/controls/ScanRangeInput.tsx:102-104 | Parsing undoes joining with a comma and a space if and only if the list is strictly increasing |
| ScanRangeInputs.ValidateScanRange | frontend/workflows-lib/lib/utils/validationUtils.ts:53-103 | All three messages and the parsed range, with NaN bounds, are as specified |
| ScanRangeInputs.AcceptedExactly | frontend/workflows-lib/lib/utils/validationUtils.ts:56-102 | A range is accepted if and only if both texts are numerals of its bounds, the excluded ones parse to its list, and the range is in order and holds them |
| ScanRangeInputs.ParseIntExactly | frontend/workflows-lib/lib/utils/validationUtils.ts:59-63 | A bound is read as the integer its text begins with, after white space and a sign, or as none |
| ScanRangeInputs.ComplaintsExactly | frontend/workflows-lib/lib/utils/validationUtils.ts:59-85 | Which message stands beside which field, for all texts: a bound that is no numeral still limits the end and the excluded scans by the integer it begins with, if any |
| ScanRangeInputs.ComplaintsBetweenNumerals | frontend/workflows-lib/lib/utils/validationUtils.ts:65-85 | Between numerals, which message stands beside which field |
| ScanRangeInputs.InitialReadsBackExactly | frontend/workflows-lib/lib/components/template/controls/ScanRangeInput.tsx:95-108 | The text first shown for a range is read as that range if and only if the range is proper and starts at 1 or above |
| ScanRangeInputs.ScanRangeInput.Dispatch | frontend/workflows-lib/lib/components/template/controls/ScanRangeInput.tsx:60-93 | Edits one field, shows the messages of the new text, and reports the range if there is one |
| ScanRangeInputs.Type | frontend/workflows-lib/lib/components/template/controls/ScanRangeInput.tsx:60-108 | Over any sequence of edits every reported range is proper, and those from 1 on are read back as they were |
| Pagination.Pager.UpdatePageInfo | frontend/relay-workflows-lib/lib/utils/useServerSidePagination.ts:12-33 | Total pages and cursor history after page info, with the includes check |
| Pagination.Pager.GoToPage | frontend/relay-workflows-lib/lib/utils/useServerSidePagination.ts:35-52 | Cursor and page after a choice, with all falsy cases |
| Pagination.Pager.ChangeLimit | frontend/relay-workflows-lib/lib/utils/useServerSidePagination.ts:54-59 | Limit, history, page and cursor are reset; the number of pages is not |
| Pagination.Drive | frontend/relay-workflows-lib/lib/utils/useServerSidePagination.ts:3-76 | Any sequence of events, handled by the hook's methods, yields the specified screen |
| Pagination.StepExactly | frontend/relay-workflows-lib/lib/utils/useServerSidePagination.ts:12-59 | One event keeps the known pages 1..n with page k at (k - 1) times the limit, and the current page known, if and only if it is an allowed one |
| Pagination.UpdatingExactly | frontend/relay-workflows-lib/lib/utils/useServerSidePagination.ts:12-33 | Page info keeps the history right if and only if it has no next page, its cursor is known, or it is that of the next page |
| Pagination.AnswerToGood | backend/graph-proxy/src/graphql/workflows.rs:618-667 | In a good state the server announces a next page exactly if there is one, and its end cursor begins that page |
| PaginationRuns.AllowedRunsStayGood | frontend/relay-workflows-lib/lib/utils/useServerSidePagination.ts:3-76 | On every run of allowed events the known pages and their cursors are right |
| PaginationRuns.ShownIsThePage | backend/graph-proxy/src/graphql/workflows.rs:618-667 | In a good state the response is exactly the slice of the current page |
| PaginationRuns.PagesCover | backend/graph-proxy/src/graphql/workflows.rs:618-667 | Put together, the pages are the list: no gap, no repeat |
| PaginationRuns.ChoosingAPage | frontend/relay-workflows-lib/lib/utils/useServerSidePagination.ts:35-52 | After a response any page on offer can be chosen, even if the effect runs again with the old page info; the next response shows that page |
| PaginationRuns.ChoosingALimit | frontend/relay-workflows-lib/lib/utils/useServerSidePagination.ts:54-59 | A limit can be chosen if the response comes before the effect runs again |
| PaginationRuns.WalkShowsEverything | frontend/relay-workflows-lib/lib/utils/useServerSidePagination.ts:3-76 | Paging on until there is no next page shows the whole list, once |
| PaginationRuns.SecondClickTooSoon | frontend/relay-workflows-lib/lib/utils/useServerSidePagination.ts:35-52 | A second click before the response shows page 2 under the number 3 |
| PaginationRuns.LimitChangedTooSoon | frontend/relay-workflows-lib/lib/utils/useServerSidePagination.ts:54-59 | With the old page info, a larger limit leaves a second page on offer although everything fits on the first |
| RowPartitions.Consecutive | examples/mpi-workflow/matrix.py:20-25 | The ranges start at 0, follow each other without gap and end at n, for every n and number of workers |
| RowPartitions.OneOwner | examples/mpi-workflow/matrix.py:20-25 | Every row of the matrix belongs to exactly one rank, and no other row to any |
| RowPartitions.Balanced | examples/mpi-workflow/matrix.py:20-25 | Sizes differ by at most one, and later ranks have no more rows than earlier ones |
| RowPartitions.WorkersDoNotMatter | examples/mpi-workflow/matrix.py:35-58 | The reduced checksum is that of the whole product, however many workers there are |

## Left out

Members that state less than could be wished:

- SchemaPreservation.PreservedExactly: leaves out schemas with a reference, such as `#%2Fproperties%2Fp`, that is not rewritten and finds a schema both in its own document and in the served one; whether their meaning survives is whether those two schemas mean the same.
- SchemaPreservation.PreservedExactlyWhenMovable: leaves out references into the document that are percent-encoded in front; `PreservedExactly` covers them.
- SchemaPreservation.KeptIsMovable: has the restriction of `PreservedExactly`, and takes for granted that `#` reads differently, which `RootsDiffer` gives.
- ArgumentSchemas.ServedMeaning: has the restriction of `PreservedExactly` for annotated schemas.
- BrokerLocks.MutualExclusion: assumes that cleanup removes a lock only while no request holds a clone of it that it still works under; `SweepSafeExactlyWhenUnclaimed` and `CleanupAsWrittenClashes` show that the code needs this and does not provide it.
- BrokerRows.RowsHoldTheLatest: makes the same assumption, and takes the broker to be the only writer of the rows.
- BrokerTimes.ExchangesAreSpaced: makes the same assumption, and leaves out eviction for lack of space.
- Daemon.DaemonStaysConsistent: is about one request after another; requests that overlap in the daemon are not modelled.
- TaskPipeline.DrawWorkflow: requires that no cycle is reached from a root; `WalkEndsExactly` shows that the browser's walk ends on exactly these workflows.
- Sessionspaces.RenderDetermines: says nothing of the data directory, which a session may also get from its instrument; `RendersFields` says what it is.
- PaginationRuns.ChoosingALimit: requires that the response arrives before the effect runs again; `LimitChangedTooSoon` shows what happens otherwise.

What the models assume:

- Schemas: strings stand for their UTF-8 bytes. Keywords that are not known to hold data or maps of schemas are read as places of schemas. `$id`, `$anchor` and `$dynamicRef` have no meaning here. What counts as JSON in an annotation is a parameter.
- Broker: the provider answers only refresh tokens that it issued, and may or may not hand out a new one. Errors of issuer URLs and of durations are among the aborts. The cleanup loop may collect and remove locks in any order and at any time, which includes its own schedule.
- Tasks: the key of a node is its id. `localeCompare` is taken as some total order, here the lexicographic one. Names that JavaScript objects inherit do not occur as ids.
- Reconcilers: a call that reports failure has no effect, namespace deletion takes effect at once, and nobody else changes the cluster. How member lists are written and which directory an instrument has are parameters.
- Identities: objects in the cluster are named after the uid in their spec, which the synchronisation keeps so; LDAP attributes are single values with natural numbers.
- Visits: the regular expression library of the frontend's visit component turns the three groups into a visit. The digits of other scripts that `\d` accepts in Rust are a parameter. JavaScript numbers are natural numbers of any size.
- Pagination: the list does not change, and the continue token is the number of items before the page.
- Matrix example: checksums are over exact arithmetic.

Not modelled:

- Clients and servers of HTTP, Argo, Kubernetes, LDAP, SQL, S3 and OpenID Connect: only their effect on the modelled state.
- Sealed boxes, JWT handling, and the gateway's login, callback and session store.
- `auth-core/src/middleware/inject_token.rs` as the gateway uses it, with a token that lives in the session.
- Reading static sessions from a file, and the tables of instruments and science groups: they would add easy members.
- The layout, highlighting and labels of the task graph, and the rest of the user interface.
- `workflows-cli/src/visit.rs`: the same printer and parser as in the service.
- Label linting, filter label strings, sensor assembly, image carousels and error-boundary retries: one-branch facts.
- Logging, metrics and telemetry.
