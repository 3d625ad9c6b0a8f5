# SystemLens: what its graphs and flows guarantee

SystemLens extracts facts about a system of services (endpoints, calls, topics, data accesses)
and turns them into graphs, code flows and reports. This project models the code that runs
after the extraction and proves what it is for. Loops and recursive closures with shared state
are methods and classes; each is proved against a specification, and the specification against
a notion of its own: reachability and distance, strongly connected components, the meaning of
Java methods, a least closed set, a join of nested loops, the runs of a stage that may crash.

The files whose names end in Laws, with RouteSpecificity and RouteLanguage, say once more what comes
out, in terms of the inputs alone: which way edges run, what is found and when, in what order.

Check everything with `dafny verify dfyconfig.toml`.

## Parts

| part | files |
|---|---|
| dependency graph and its event cycles | NodeIds, DependencyGraph, DependencyAudit, DependencyLaws, SccSpec, Tarjan, EventCycles, CycleLaws |
| origin of data keys along calls | JavaMethods, ValueOrigins, TraceLaws, KeySoundness, KeyRivals |
| paths, impact and topic chains | Topology, TopologyLaws, TrailSpec, PathSearch, PathLaws, ImpactSearch, ChainSpec, TopicTrace, TopicLaws, TopicMixing |
| flow trees and method paths | FlowLinks, FlowTree, FlowLaws, Dispatch, MethodPath, MethodLaws |
| export and import of graph facts | Json, GraphFacts, Manifest, ManifestElements, ManifestLoader, ManifestLaws, ManifestRoundTrip, ManifestDrift |
| checkpoints of the call-graph stage | StageSpec, StageLaws, StageSafety, ResumeSafety, Stage |
| ids and merging | UniqueIds, KeptIds, MergeFacts |
| payload types, runtime metrics | DtoClosure, ApmPages, ApmFold, ApmTotals, ApmLaws |
| routes and edges between services | RouteMatching, RouteLanguage, RouteSelection, RouteSpecificity, ServiceGraph, GraphLaws, ContractCalls |
| order of asynchronous writes and reads | SiteOrder, StaleReads, StalePasses, StaleLaws |
| shared notions | Basics, Digraph, Numerals, Order, Text, Wrappers |

## Where the code differs from what it says

Each point is proved for all inputs, as an exact condition where there is one.

- Key tracing ignores fields, variables that are not marked as final, and everything that an
  anonymous class declares, although calls and accesses inside such a class are traced as if they
  stood in the method around it. It also overlooks a write that is not spelled as the bare name, such
  as `(key)++`, and takes the word final in an annotation for the modifier. The names followed along a
  route mean what the trace takes them to mean, and keep their values, if and only if none of them has
  such a rival or such a write (`KeyRivals.RouteFollowedIffClear`); where a rival or a write may bring
  any value, the traced origin cannot be relied on (`KeyRivals.FreeRivalMisleads`,
  `KeyRivals.SiblingMisleads`, `KeyRivals.HiddenMisleads`, `KeyRivals.SpelledMisleads`,
  `KeyRivals.AnnotatedMisleads`).
- A call whose contract is not answered by exactly one service is documented to stay unresolved. The
  code goes on to its hint instead, and leads it to a route exactly if the hint does
  (`ContractCalls.UnresolvedIff`), even to a service that does not answer the contract
  (`ContractCalls.StraysIff`, `ContractCalls.HintOverridesContract`).
- The comment at the end of the call-graph stage says that no join checkpoint of a timed-out run
  may survive. It does not survive a return, but a crash of the second join leaves one that a
  resumption accepts (`StageSafety.WhenIncompleteCallsAreTrusted`).
- The checkpoint of a project stores a part of the joined flows and leaves the offset that counts
  all of them, so that a crash can lose flows without any deadline (`ResumeSafety.OffsetKeptIff`,
  `ResumeSafety.ProjectMayLoseFlows`).
- Topic nodes forget which producer was paired with which consumer. Paths can therefore join services
  that no edge joins, for instance because their message types conflict (`Topology.TopicNodesExact`,
  `TopicMixing.PathsMixPairs`).
- Pagination fails from more than 99 full pages on, not from more than the 100 pages that its
  message states, because the page that would show the end is not asked for (`ApmPages.CompositeBuckets`).
- An id that occurs once can still change: the id invented for an earlier item may take it
  (`KeptIds.SingleIdMayChange`). Which items keep their ids is known from the input
  (`KeptIds.HistoricalIdsKeptIff`).
- A topic name with a colon can give a static and a dynamic topic one node id
  (`NodeIds.StaticMeetsDynamic`); this is the only way (`NodeIds.IdsMeetIff`, `NodeIds.KindsApart`).
- The index of candidate reads misses some pairs that the scan of all pairs keeps (`StalePasses.IndexMisses`).
- Route matching is symmetric except beside a dynamic path (`RouteMatching.PathsSymmetric`).
- A second export and import is the identity only for trimmed edge ends and ids that
  differ once stripped (`ManifestRoundTrip.FixedPoint`, `ManifestDrift.RoundsDiffer`,
  `ManifestDrift.IdsMeetOnceStripped`).
- Two tests never decide: the number of members of an event cycle (`EventCycles.EventfulHasThree`)
  and the number of overrides at a call site (`Dispatch.AllowedMeans`).

## Model

| member | source | states |
|---|---|---|
| `SccSpec.PushStarts` | src/systemlens/application/dependency_analysis.py:283-289 | numbering and stacking a node, which every unfinished node reaches, establishes the invariant inside its visit |
| `SccSpec.StackedTarget` | src/systemlens/application/dependency_analysis.py:294-295 | a target still on the stack may lower the low link to its number: the invariant and the low-link bounds hold with this target treated |
| `SccSpec.VisitedTarget` | src/systemlens/application/dependency_analysis.py:291-293 | what a nested visit leaves behind is enough to treat its target, for components emitted in between as well as for stacked nodes |
| `SccSpec.NotARoot` | src/systemlens/application/dependency_analysis.py:296-297 | a node whose low link is below its number stays on the stack and leads back to an unfinished node |
| `SccSpec.RootComponent` | src/systemlens/application/dependency_analysis.py:298-305 | what a root has stacked is mutually reachable and has no edge to the older stack |
| `SccSpec.RootEmits` | src/systemlens/application/dependency_analysis.py:298-305 | emitting it restores the invariant of the caller |
| `Tarjan.SccSearch.Visit` | src/systemlens/application/dependency_analysis.py:283-305 | keeps the invariant; numbers of earlier nodes stay, components only grow, and either all that was stacked is emitted or the low link tells how far down it leads |
| `Tarjan.SccSearch.EmitComponent` | src/systemlens/application/dependency_analysis.py:298-305 | pops exactly the stack above the root: stack, on_stack and components have their whole new values |
| `Tarjan.SccSearch.Follow` | src/systemlens/application/dependency_analysis.py:290-295 | one edge: the target counts as treated, nothing emitted is lost |
| `Tarjan.SccSearch.Return` | src/systemlens/application/dependency_analysis.py:296-305 | the end of a visit, as a root or not |
| `Tarjan.SccSearch.Run` | src/systemlens/application/dependency_analysis.py:307-309 | after the outer loop the components, each closed towards earlier ones, cover the graph |
| `Tarjan.RootCloses` | src/systemlens/application/dependency_analysis.py:298-305 | the popped nodes form the next component of an emitted sequence and the stack is back to what it was |
| `Tarjan.ReachesBackwards` | src/systemlens/application/dependency_analysis.py:283-309 | a node reaches only its own component and components emitted before it |
| `Tarjan.ComponentsDisjoint` | src/systemlens/application/dependency_analysis.py:283-309 | no node is in two components |
| `Tarjan.ComponentsAreSccs` | src/systemlens/application/dependency_analysis.py:283-309 | the components are exactly the maximal mutually reachable sets, each emitted once, each after all it can reach |
| `EventCycles.BuildAdjacency` | src/systemlens/application/dependency_analysis.py:270-274 | the adjacency has every node as a key and exactly the targets of the relevant edges |
| `EventCycles.EventfulHasThree` | src/systemlens/application/dependency_analysis.py:316-317 | two services with different names and a topic are three members, so the test on the number of members never decides |
| `EventCycles.LastOfId` | src/systemlens/application/dependency_analysis.py:311-311 | of nodes with one id the last is kept |
| `EventCycles.SelectionTest` | src/systemlens/application/dependency_analysis.py:314-317 | the tests on the sorted lists hold exactly for components with two service names and a topic |
| `EventCycles.Describe` | src/systemlens/application/dependency_analysis.py:314-318 | decides and describes one component |
| `EventCycles.CyclesOfComponents` | src/systemlens/application/dependency_analysis.py:312-319 | selecting among all components yields exactly the eventful ones, each once |
| `EventCycles.FindEventCycles` | src/systemlens/application/dependency_analysis.py:268-319 | for every graph whose edge ends are nodes: exactly the strongly connected components with two service names and a topic, each once |
| `NodeIds.IdsMeetIff` | src/systemlens/application/dependency_analysis.py:71-72 | within a kind two nodes share an id if and only if they are the same, or the name of one starts with what its service lacks of the other service, and a colon |
| `NodeIds.StaticMeetsDynamic` | src/systemlens/application/dependency_analysis.py:181-181 | a static topic and a dynamic topic of a service share an id if and only if the static name is the service, a colon and the dynamic name |
| `NodeIds.IdsDiffer` | src/systemlens/application/dependency_analysis.py:71-72 | names without a colon never share an id within a kind: dynamic topics are kept apart per service |
| `NodeIds.KindsApart` | src/systemlens/application/dependency_analysis.py:71-72 | ids of two kinds without a colon never meet, whatever names and services are |
| `DependencyGraph.Builder.AddNode` | src/systemlens/application/dependency_analysis.py:121-131 | one more declared node: its id is a node, every other node is unchanged, and the dictionary is again the one of all declarations so far |
| `DependencyGraph.LogHolds` | src/systemlens/application/dependency_analysis.py:121-131 | after any declarations there is exactly one node per declared id, which is one of the declared ones and external exactly when some declaration of its id says so |
| `DependencyGraph.AddCall` | src/systemlens/application/dependency_analysis.py:195-230 | one REST call declares exactly the nodes and gives exactly the edge its evidence calls for: configured host, service outside, unmatched API, or none |
| `DependencyGraph.AddKafka` | src/systemlens/application/dependency_analysis.py:175-188 | exactly one edge and its two nodes per effective Kafka endpoint, dynamic topics under their own service |
| `DependencyGraph.BuildDependencyGraph` | src/systemlens/application/dependency_analysis.py:108-247 | an edge is in the graph exactly when the evidence gives it, with both ends nodes; there is a node for exactly the declared ids, isolated ones included, external exactly when a declaration says so |
| `DependencyAudit.EventCyclesOf` | src/systemlens/application/dependency_analysis.py:247-354 | from the evidence to the cycles: both lists sorted by their keys and complete, and the reported cycles are exactly the strongly connected components of the evidenced relation with two service names and a topic, each once |
| `DependencyAudit.SameNodes` | src/systemlens/application/dependency_analysis.py:247-311 | whatever the order of the list, the search files the same nodes under the same ids |
| `DependencyGraph.Builder.AddEdge` | src/systemlens/application/dependency_analysis.py:133-137 | the first edge of a key is kept, and edge ends stay nodes |
| `DependencyLaws.EdgesIff` | src/systemlens/application/dependency_analysis.py:139-247 | read off the endpoints, routes and stores: an edge runs exactly from a caller to the service it is matched with or addresses, from a producer to its topic, from a topic to its consumer, from a stranded call to its API, from a service to its collection, with these kinds and texts |
| `DependencyLaws.IntoTopic` | src/systemlens/application/dependency_analysis.py:183-185 | into a topic lead exactly the services that publish to it, in the graph that is searched for cycles as well |
| `DependencyLaws.OutOfTopic` | src/systemlens/application/dependency_analysis.py:186-188 | a topic leads exactly to the services that consume it |
| `DependencyLaws.BetweenServices` | src/systemlens/application/dependency_analysis.py:139-230 | a service leads to another exactly if it calls it |
| `DependencyLaws.IntoApi` | src/systemlens/application/dependency_analysis.py:219-230 | into an unmatched API lead exactly the services whose calls go nowhere known |
| `DependencyLaws.IntoCollection` | src/systemlens/application/dependency_analysis.py:231-247 | into a collection leads exactly the service that stores it, or one whose own collection has the same id |
| `DependencyLaws.PairIsWalk` | src/systemlens/application/dependency_analysis.py:175-188 | a producer and a consumer that exchange messages give the walk from the one service over the topic to the other |
| `CycleLaws.NodesIff` | src/systemlens/application/dependency_analysis.py:108-247 | there is a node for exactly the ids that endpoints, routes, calls and stores mention, with their kind, name and service, external exactly if a call names a service outside |
| `CycleLaws.CycleListed` | src/systemlens/application/dependency_analysis.py:311-319 | each cycle lists the nodes of one strongly connected component in the order of their ids, with their kinds and names, and the names of its services in order; it has two services and a topic |
| `CycleLaws.ComponentListed` | src/systemlens/application/dependency_analysis.py:311-319 | each such component is listed |
| `CycleLaws.NodeOrderMeans` | src/systemlens/application/dependency_analysis.py:247-247 | nodes are listed by kind, service and name |
| `CycleLaws.EdgeOrderMeans` | src/systemlens/application/dependency_analysis.py:248-248 | edges are listed by source, target, kind and text |
| `ValueOrigins.ParameterIndexOf` | src/systemlens/indexing/java_value_origins.py:46-75 | a parameter index is found only for the sole parameter of that name, never assigned in the method |
| `ValueOrigins.ParameterIndex` | src/systemlens/indexing/java_value_origins.py:46-75 | the loop over the parameters computes it |
| `ValueOrigins.AliasOf` | src/systemlens/indexing/java_value_origins.py:94-123 | a name resolves to a declaration only if it is the sole final scalar local of that name declared by that line |
| `ValueOrigins.Fewer` | src/systemlens/indexing/java_value_origins.py:78-123 | resolving an alias leaves fewer declared names unvisited, so cyclic aliases terminate |
| `ValueOrigins.CallArgument` | src/systemlens/indexing/java_value_origins.py:126-143 | an argument is taken only from the sole invocation of that name that spans the call line |
| `ValueOrigins.TraceScalarKeyIdentity` | src/systemlens/indexing/java_value_origins.py:146-218 | the backward loop with its early returns computes the trace whose soundness TraceSound states |
| `ValueOrigins.OnlyCallSite` | src/systemlens/indexing/java_value_origins.py:126-143 | the call site is found exactly for the sole invocation of that name that spans the line |
| `TraceLaws.OriginIff` | src/systemlens/indexing/java_value_origins.py:78-123 | an expression has an origin exactly if a chain of aliases, each the sole final scalar of its name, leads to that literal or to that sole, scalar, never assigned parameter |
| `TraceLaws.HopIff` | src/systemlens/indexing/java_value_origins.py:197-215 | a hop passes an argument on exactly if its caller is located and the sole invocation of that name on the line has an argument there whose chain of aliases ends so |
| `TraceLaws.ParameterTraced` | src/systemlens/indexing/java_value_origins.py:146-218 | exactly when a key is traced to a parameter of the entry, and to which: a resource, and a chain of indices from the key back through every hop, each in the method it belongs to and handing a parameter on |
| `TraceLaws.LiteralTraced` | src/systemlens/indexing/java_value_origins.py:146-218 | exactly when a key is traced to a literal, and to which: it is one, resolves to one, or a hop passes one that the later hops hand on; the identity carries the resource |
| `KeySoundness.SoleMeans` | src/systemlens/indexing/java_value_origins.py:94-119 | a name has no rival if and only if the picked declaration is the only thing it can mean there, inner members of anonymous classes with their parameters, variables and fields included |
| `KeySoundness.ArgumentKept` | src/systemlens/indexing/java_value_origins.py:46-75 | in every execution, a parameter that the compiler binds no write to holds its argument, however writes are spelled |
| `KeySoundness.OriginSound` | src/systemlens/indexing/java_value_origins.py:78-123 | in every reachable state, an expression with a known origin evaluates to the literal or to the argument that the origin names |
| `KeySoundness.AliasHolds` | src/systemlens/indexing/java_value_origins.py:94-123 | an alias that no write is bound to, once assigned, holds the value of its initializer's origin |
| `KeySoundness.HopSound` | src/systemlens/indexing/java_value_origins.py:197-215 | the origin found for an argument denotes the value that the call passed |
| `KeySoundness.TraceBackSound` | src/systemlens/indexing/java_value_origins.py:178-218 | the remaining hops lead to the literal or the entry argument that was passed on |
| `KeySoundness.TraceSound` | src/systemlens/indexing/java_value_origins.py:146-218 | along any route without a rival or a write of a followed name, for any entry arguments and any execution: a traced literal is the key's value, a traced entry parameter holds it |
| `KeyRivals.FollowedIffClear` | src/systemlens/indexing/java_value_origins.py:78-123 | the names that the resolution of an expression follows, aliases included, mean what it takes them to mean and keep their values in every program with this text if and only if none of them has a rival or is written |
| `KeyRivals.RouteFollowedIffClear` | src/systemlens/indexing/java_value_origins.py:146-218 | the same along a whole route, from the key through call arguments back to the entry: the condition of TraceSound is exact |
| `KeyRivals.FreeRivalMisleads` | src/systemlens/indexing/java_value_origins.py:78-123 | where a followed name, be it the key, an alias or an argument, has a rival that may hold any value or is itself overwritten, some legal execution gives the expression another value than the traced origin |
| `KeyRivals.SiblingMisleads` | src/systemlens/indexing/java_value_origins.py:94-119 | a concrete method that the trace gets wrong: a sibling block declares the name without final |
| `KeyRivals.HiddenMisleads` | src/systemlens/discovery/java/parser.py:180-189 | another one: the parameter of an anonymous class's method hides the one that the trace reports, whatever the argument |
| `KeyRivals.SpelledMisleads` | src/systemlens/discovery/java/value_dependencies.py:13-24 | a parenthesised update of the parameter goes unnoticed: the key is not the argument that the trace reports, although no other declaration is in sight |
| `KeyRivals.AnnotatedMisleads` | src/systemlens/indexing/java_value_origins.py:102-104 | a variable that only an annotation calls final is traced to its initializer and has another value |
| `Topology.BuildTopology` | src/systemlens/application/architecture.py:525-562 | each node lists exactly the entries that the edges give it, as often as they give them, in increasing order |
| `Topology.SortEntries` | src/systemlens/application/architecture.py:560-562 | sorting keeps the entries of every node |
| `Topology.LinkMeans` | src/systemlens/application/architecture.py:541-559 | two nodes are linked exactly when some edge links them in this projection |
| `Topology.OrderIrrelevant` | src/systemlens/application/architecture.py:541-562 | the projection does not depend on the order of the edges |
| `Topology.TopicNodesExact` | src/systemlens/application/architecture.py:552-559 | paths through topic nodes connect exactly the services that edges connect if and only if each topic leads from any of its sources to any of its targets by edges alone |
| `Topology.FindMicroservicePaths` | src/systemlens/application/architecture.py:565-635 | the search on the projection with topic nodes |
| `Topology.MicroserviceImpactPaths` | src/systemlens/application/architecture.py:638-696 | the search on the projection with reversed REST edges |
| `TopologyLaws.PathEntries` | src/systemlens/application/architecture.py:541-559 | how often a node lists an entry for paths: once per call from its service to that provider, per message it publishes or per consumer of its topic |
| `TopologyLaws.ImpactEntries` | src/systemlens/application/architecture.py:541-559 | the same for impact, with calls turned round and messages from producer to consumer |
| `TopologyLaws.CallsRunForward` | src/systemlens/application/architecture.py:544-551 | a path steps between services exactly from a caller to its provider |
| `TopologyLaws.ImpactRunsToDependents` | src/systemlens/application/architecture.py:544-559 | impact steps exactly from a provider to its callers and from a producer to its consumers |
| `TopologyLaws.EntryOrderMeans` | src/systemlens/application/architecture.py:560-562 | entries are listed by kind and name of the node, then by kind and text of the relation |
| `TopologyLaws.ImpactLimits` | src/systemlens/application/architecture.py:658-696 | where fewer than 100 services are reported they are exactly those within 32 steps |
| `TopicMixing.PathsMixPairs` | src/systemlens/domain/graph.py:642-653 | in the graph built from two producers and two consumers of one topic whose message types conflict crosswise, the paths lead from the first producer to the second consumer and the edges do not |
| `TopicMixing.TwoPairsExist` | src/systemlens/domain/graph.py:642-653 | a workspace of that kind exists |
| `TrailSpec.LevelExact` | src/systemlens/application/architecture.py:604-627 | level n of the queue holds exactly the simple paths of length n that avoid the target before their end, each as often as there are choices of parallel entries |
| `TrailSpec.FirstLevel` | src/systemlens/application/architecture.py:607-611 | the target first appears on the level of its distance |
| `TrailSpec.ShortestIsSimple` | src/systemlens/application/architecture.py:624-627 | a shortest path repeats no node, so the search loses none |
| `TrailSpec.HitsAreShortest` | src/systemlens/application/architecture.py:607-621 | at the distance of the target the hits are exactly the shortest paths, each once per choice of entries |
| `TrailSpec.NoHitsLater` | src/systemlens/application/architecture.py:622-627 | after an empty level there is nothing more to find |
| `PathSearch.Advance` | src/systemlens/application/architecture.py:604-627 | one iteration keeps the level invariant and makes progress, for every depth and limit |
| `PathSearch.FindPaths` | src/systemlens/application/architecture.py:598-635 | a target within the depth bound yields the first limit shortest paths and a flag that tells whether there are more; any other target yields none |
| `PathSearch.AnswersMean` | src/systemlens/application/architecture.py:598-635 | each path listed is a shortest one within the bound, at most once per choice of entries; the flag is set exactly when some shortest path is listed less often; for a positive limit the list is empty exactly when the target is out of reach within the bound |
| `PathLaws.ListsInOrder` | src/systemlens/application/architecture.py:598-635 | from the first on and up to the limit, the shortest paths in the lexicographic order of the places of the entries they take; the flag tells that the limit cuts some off |
| `ImpactSearch.SpreadKeeps` | src/systemlens/application/architecture.py:674-690 | treating the entries of one service reaches all its targets, or cuts off with one of them missing |
| `ImpactSearch.LevelComplete` | src/systemlens/application/architecture.py:664-690 | when a level is exhausted, everything one step further is reached |
| `ImpactSearch.TreatKeeps` | src/systemlens/application/architecture.py:664-690 | every iteration keeps the invariant or, at either cut-off, establishes the whole answer |
| `ImpactSearch.Decreases` | src/systemlens/application/architecture.py:664-690 | an iteration reaches a new service or shortens the queue |
| `ImpactSearch.ImpactPaths` | src/systemlens/application/architecture.py:658-696 | every reported service once, by a shortest path of at most 32 steps; truncated exactly when a reachable service is missing; none missing is nearer than one reported; with fewer than 100 reports none within 32 steps is missing |
| `ChainSpec.EnumerationExact` | src/systemlens/application/architecture.py:788-806 | the enumeration lists exactly the bounded chains from the topic |
| `ChainSpec.EnumerationOnce` | src/systemlens/application/architecture.py:788-806 | no chain is listed twice |
| `ChainSpec.OnlyFlaggedEndRepeats` | src/systemlens/application/architecture.py:788-806 | a chain is flagged exactly when a topic repeats, and only its last topic can repeat one |
| `ChainSpec.ChainsExact` | src/systemlens/application/architecture.py:788-806 | from any visited prefix, exactly its extensions are listed |
| `TopicTrace.Tracer.AddFlow` | src/systemlens/application/architecture.py:777-786 | keeps the first limit chains offered and flags the others |
| `TopicTrace.Tracer.Visit` | src/systemlens/application/architecture.py:788-806 | with its early exits and the shared result, a visit records as if it had offered its whole enumeration |
| `TopicTrace.BuildCatalog` | src/systemlens/application/architecture.py:757-772 | the consumers and publications are exactly those of static Kafka endpoints with a module |
| `TopicTrace.TraceTopicFlows` | src/systemlens/application/architecture.py:748-817 | unknown exactly when no static Kafka endpoint names the topic; otherwise the first limit chains of the enumeration, truncated exactly when it is longer |
| `TopicTrace.ListsMean` | src/systemlens/application/architecture.py:748-817 | reported flows are distinct bounded chains, and truncated holds exactly when some bounded chain is missing |
| `TopicLaws.ChainIff` | src/systemlens/application/architecture.py:757-806 | the chains read off the endpoints: each service receives the topic before it and sends the topic after it, at most as many services as the depth allows, ending where nothing is sent, at the bound, or at the first repeated topic |
| `TopicLaws.ReportsFirstRuns` | src/systemlens/application/architecture.py:748-817 | the reported flows are such chains in the order of their names, and none that is missing comes before one of them |
| `TopicLaws.TruncatedIff` | src/systemlens/application/architecture.py:777-786 | such chains are missing exactly if the list is truncated, and then it has the full length |
| `FlowLinks.BuildFlowIndex` | src/systemlens/application/code_flows.py:907-917 | a resource files exactly the flows that enter at it |
| `FlowLinks.FiledAnswers` | src/systemlens/application/code_flows.py:880-886 | of a filed candidate only identity and role remain to be checked |
| `FlowLinks.FlowChildren` | src/systemlens/application/code_flows.py:864-891 | through the index, exactly the flows that one of the outputs enters, in the order of their keys |
| `FlowLaws.LinksIff` | src/systemlens/application/code_flows.py:864-891 | a flow is linked to another exactly if something it sends out comes in there: a call at a served route, a message at a consumer, of one system and topic |
| `FlowLaws.KeyOrderMeans` | src/systemlens/application/code_flows.py:888-891 | children are listed by module, path, line and id |
| `FlowTree.BuildTree` | src/systemlens/application/code_flows.py:920-949 | the recursion over the shared visited set computes the tree that the lemmas below describe, for a snapshot with unique ids |
| `FlowTree.TreeLists` | src/systemlens/application/code_flows.py:920-949 | the tree lists each id its construction visited once |
| `FlowTree.TreeCloses` | src/systemlens/application/code_flows.py:920-949 | the links of every flow visited since are visited too |
| `FlowTree.TreeShows` | src/systemlens/application/code_flows.py:920-949 | each tree hangs below a flow that links to it, in the order of the links, with that flow's data |
| `FlowTree.TreeIsReachable` | src/systemlens/application/code_flows.py:920-949 | the tree lists exactly the flows reachable through links, each once |
| `FlowTree.FlowRootIds` | src/systemlens/application/code_flows.py:894-904 | the roots are exactly the flows that no flow links to |
| `FlowTree.OnlyTopMayBeRoot` | src/systemlens/application/code_flows.py:920-949 | the root mark can only be set at the top of a tree |
| `FlowTree.ShowTree` | src/systemlens/application/code_flows.py:952-973 | what is shown below a flow: exactly the reachable flows, each once |
| `FlowLaws.ShownSays` | src/systemlens/application/code_flows.py:920-973 | each node of the tree names a flow, its method and its trigger, is marked as root exactly if no flow feeds it, and has below it, in the order of their keys, nodes of flows that it feeds |
| `Dispatch.Partition` | src/systemlens/domain/code_flows.py:174-181 | splitting a qualified name at its last dot gives back owner and simple name |
| `Dispatch.AllowedMeans` | src/systemlens/domain/code_flows.py:158-185 | an edge is excluded exactly when the caller is not of the entry's class and the site has another override on that class; the count of overrides never decides |
| `MethodLaws.FollowIff` | src/systemlens/domain/code_flows.py:158-185 | the rule on classes and names: a call between two other classes is followed exactly if its line calls no method of that name on the class of the entry |
| `Dispatch.ExcludedHasSibling` | src/systemlens/application/code_flows.py:656-672 | next to an excluded edge stands an allowed one of the same site and name, on the entry's class |
| `Dispatch.SomeCallAllowed` | src/systemlens/application/code_flows.py:656-672 | a method that calls anything keeps an allowed call |
| `MethodPath.NewIsFirst` | src/systemlens/application/code_flows.py:639-652 | the call that reaches a method for the first time completes the first chain to it |
| `MethodPath.LeavesLater` | src/systemlens/application/code_flows.py:635-652 | any chain that leaves the visited methods is longer than the one under treatment |
| `MethodPath.AllVisited` | src/systemlens/application/code_flows.py:635-653 | with an empty queue every method that an allowed chain reaches is visited |
| `MethodPath.TreatCalls` | src/systemlens/application/code_flows.py:639-652 | one loop over the sorted calls keeps the queue ordered by length and first difference |
| `MethodPath.ShortestMethodPath` | src/systemlens/application/code_flows.py:624-653 | the chain that comes first by length and then by its calls, with the methods along it; none exactly when no chain of allowed calls leads to the target |
| `MethodPath.FirstIsShortest` | src/systemlens/application/code_flows.py:624-653 | no allowed chain to the target is shorter |
| `MethodLaws.PathMeans` | src/systemlens/application/code_flows.py:624-653 | the path reported runs along calls that may be followed, and before every other such chain to the target: shorter, or with the sooner file, line or callee at the first difference |
| `MethodLaws.NoPathIff` | src/systemlens/application/code_flows.py:624-653 | none is reported exactly if no chain of calls that may be followed leads to the target |
| `Json.StripTrims` | src/systemlens/application/ai_graph.py:131-134 | stripping is idempotent and changes exactly the strings with a space at an end |
| `Manifest.GraphFactsManifest` | src/systemlens/application/ai_graph.py:41-128 | the loops over facts produce the document that RoundTrip is about |
| `Manifest.ExportEdges` | src/systemlens/application/ai_graph.py:78-111 | each edge end without node fact is noted once, in the order of the edges |
| `ManifestLaws.NodeExports` | src/systemlens/application/ai_graph.py:56-76 | every entry of the element of a node fact, evidence and optional texts included |
| `ManifestLaws.EdgeExports` | src/systemlens/application/ai_graph.py:78-111 | every entry of the element of an edge fact; an end is the id of the last node fact of that kind and name, or a reference |
| `ManifestElements.ReadNodeFact` | src/systemlens/application/ai_graph.py:208-266 | an exported node is read back as the restored fact exactly when it passes the checks, and refused otherwise |
| `ManifestElements.ReadRef` | src/systemlens/application/ai_graph.py:113-121 | a reference node is read back exactly when its kind and name are not blank and it is no data access |
| `ManifestElements.ReadEdgeFact` | src/systemlens/application/ai_graph.py:268-319 | an exported edge whose ends resolve is read back exactly when it passes the checks |
| `ManifestLoader.Step` | src/systemlens/application/ai_graph.py:208-319 | one iteration refuses an element exactly when it cannot be read or reuses an id |
| `ManifestLoader.LoadNodes` | src/systemlens/application/ai_graph.py:208-266 | the loop over nodes accepts exactly the readable lists without repeated ids, and files them by their raw ids |
| `ManifestLoader.LoadEdges` | src/systemlens/application/ai_graph.py:268-319 | the loop over edges, on top of the nodes |
| `ManifestLoader.LoadFactManifest` | src/systemlens/application/ai_graph.py:161-323 | with its early errors and growing sets, accepts exactly the documents all of whose elements can be read without a repeated id |
| `ManifestLaws.NodeIff` | src/systemlens/application/ai_graph.py:208-266 | of any element: whether it is read as a node, and what every field of the fact then is |
| `ManifestLaws.EdgeIff` | src/systemlens/application/ai_graph.py:268-319 | the same for an edge on top of the nodes |
| `ManifestLaws.ImportIff` | src/systemlens/application/ai_graph.py:161-323 | a document is imported exactly if its format, namespace, lists and mode are right, every element is readable and no id repeats, and then as the facts of its elements in order |
| `ManifestRoundTrip.EndResolves` | src/systemlens/application/ai_graph.py:83-121 | every exported edge end names an exported element of that kind and name |
| `ManifestRoundTrip.RoundTrip` | src/systemlens/application/ai_graph.py:41-323 | importing an export succeeds exactly when the facts are exportable, and then restores every fact in order and adds one node per dangling end |
| `ManifestRoundTrip.NodeUnchanged` | src/systemlens/application/ai_graph.py:55-266 | a node comes back unchanged exactly when it says nothing that the format drops |
| `ManifestRoundTrip.EdgeUnchanged` | src/systemlens/application/ai_graph.py:78-319 | the same for an edge |
| `ManifestRoundTrip.ImportedTwice` | src/systemlens/application/ai_graph.py:161-323 | restoring is idempotent on every fact, the reference nodes included |
| `ManifestRoundTrip.EndFoundAgain` | src/systemlens/application/ai_graph.py:83-89 | a second export finds an edge end exactly when its kind and name are trimmed |
| `ManifestRoundTrip.FixedPoint` | src/systemlens/application/ai_graph.py:41-323 | after one round, another export and import is the identity exactly when edge ends are trimmed and ids still differ once stripped |
| `ManifestRoundTrip.TrimmedIdsDiffer` | src/systemlens/application/ai_graph.py:203-206 | the second condition holds for trimmed ids and a trimmed namespace |
| `ManifestDrift.RoundsDiffer` | src/systemlens/application/ai_graph.py:41-323 | an exportable selection whose second round changes the facts: an edge to a name with a space in front |
| `ManifestDrift.IdsMeetOnceStripped` | src/systemlens/application/ai_graph.py:41-323 | another one, with every edge end trimmed: two stored ids differ only by a space at the end |
| `StageSpec.SurvivingAll` | src/systemlens/indexing/call_graph_stage.py:215-226 | comparing lengths before writing the table loses nothing |
| `Stage.MarkFlowSnapshotInProgress` | src/systemlens/indexing/call_graph_stage.py:198-226 | drops the signature, marks the snapshot and keeps exactly the flows whose files and endpoints remain |
| `Stage.OpenStage` | src/systemlens/indexing/call_graph_stage.py:261-486 | all that changes before the engine starts, none of it committed |
| `Stage.Checkpoint` | src/systemlens/indexing/call_graph_stage.py:455-621 | a checkpoint of the call graph, the join or a project commits exactly the working snapshot it states |
| `Stage.Checkpoints` | src/systemlens/indexing/call_graph_stage.py:520-621 | any sequence of checkpoints; what is on disk is the last one |
| `Stage.CloseJoin` | src/systemlens/indexing/call_graph_stage.py:795-805 | the checkpoint of the joined flows |
| `Stage.JoinCalls` | src/systemlens/indexing/call_graph_stage.py:682-805 | the attempt, a deadline before or after the join, the second join and errors, each with its checkpoints in order |
| `Stage.CloseStage` | src/systemlens/indexing/call_graph_stage.py:836-850 | the end of a run, timed out or not |
| `Stage.RunCallGraphStage` | src/systemlens/indexing/call_graph_stage.py:229-861 | working tables, commits in order, disk and outcome are those of the trace, wherever it stops |
| `StageSafety.CheckpointsPartial` | src/systemlens/indexing/call_graph_stage.py:455-805 | over every run: each commit has no flow signature and status partial, and each of its flows survived or was built in this run |
| `StageSafety.CheckpointsResume` | src/systemlens/indexing/service.py:314-345 | a resumption from any commit is accepted and finds the signature of the current methods |
| `StageSafety.CrashIsNoticed` | src/systemlens/indexing/service.py:562-571 | after a crash anywhere, the disk is as before the run or the next pass runs the stage again, whatever its signature |
| `StageSafety.ReturnMeans` | src/systemlens/indexing/call_graph_stage.py:836-850 | a returned run leaves a signature exactly when it was not timed out, no join checkpoint, and the next pass repeats exactly the timed-out ones |
| `StageSafety.SignatureMeansComplete` | src/systemlens/indexing/call_graph_stage.py:198-850 | a signature present at any point means that the run is over, complete and was not timed out |
| `StageSafety.CrashAfterDeadline` | src/systemlens/indexing/call_graph_stage.py:743-805 | which checkpoint a crash after the deadline leaves, and that the checks on a resumption accept it |
| `StageSafety.WhenIncompleteCallsAreTrusted` | src/systemlens/indexing/call_graph_stage.py:743-845 | some crash leaves a trusted checkpoint from after the deadline if and only if the deadline struck before the join and the second join reached a checkpoint or its end |
| `StageSafety.DeadlineCheckpointSurvives` | src/systemlens/indexing/call_graph_stage.py:837-845 | the smallest such run, against what the comment at the end of the stage promises |
| `StageLaws.TableKept` | src/systemlens/indexing/call_graph_stage.py:215-226 | the flow table keeps in their order exactly the flows that name no deleted file and no purged endpoint |
| `StageLaws.StartMeans` | src/systemlens/indexing/call_graph_stage.py:198-226 | every entry of the metadata when the engine starts: no signature, partial, a fresh or fitting offset, the counts of the last graph gone unless a view is refreshed |
| `StageLaws.AttemptNotesGraph` | src/systemlens/indexing/call_graph_stage.py:455-467 | during the attempt, a checkpoint that follows a graph notes its edges as complete |
| `StageLaws.RetryNotesGraph` | src/systemlens/indexing/call_graph_stage.py:455-467 | after the deadline it notes them as partial |
| `StageLaws.JoinCloses` | src/systemlens/indexing/call_graph_stage.py:682-805 | a run that closes its join commits once more after all signals: exactly the joined flows, the offset behind the last method, status and count; a run that breaks commits no more and raises |
| `StageLaws.NoJoin` | src/systemlens/indexing/call_graph_stage.py:486-487 | without methods or an engine nothing is committed |
| `StageLaws.RunEnds` | src/systemlens/indexing/call_graph_stage.py:836-850 | a run that returns leaves exactly the final flows and no checkpoint; it is complete and signed exactly if the engine met its deadline |
| `StageLaws.DecideIff` | src/systemlens/indexing/service.py:314-345 | a pass resumes exactly from a partial snapshot with a join of the same inputs and a readable offset, and then with that offset; otherwise it says what is amiss |
| `ResumeSafety.CheckpointStores` | src/systemlens/indexing/call_graph_stage.py:520-621 | the k-th checkpoint has the offset and the flows that the first k signals left |
| `ResumeSafety.OffsetKeptIff` | src/systemlens/indexing/call_graph_stage.py:520-640 | a checkpoint has the flows that were joined when its offset was noted if and only if no project checkpoint with other flows came after them |
| `ResumeSafety.ProjectMayLoseFlows` | src/systemlens/indexing/call_graph_stage.py:528-559 | wherever the project stands in an attempt and however the attempt goes on: a crash after its checkpoint leaves an offset that a resumption accepts and matches, with the flows of that offset exactly if the filter of that checkpoint took them all |
| `Numerals.DecimalInjective` | src/systemlens/domain/code_flows.py:104-107 | the counters appended to ids never coincide |
| `UniqueIds.TriedFits` | src/systemlens/domain/code_flows.py:103-107 | pigeonhole: candidates in use are no more than the ids in use |
| `UniqueIds.FreeId` | src/systemlens/domain/code_flows.py:103-107 | the collision loop ends at the first free candidate |
| `UniqueIds.EnsureUniqueIds` | src/systemlens/domain/code_flows.py:83-110 | the loop with its set of used ids computes the list that the lemmas below describe, for any digest |
| `UniqueIds.UniqueIsDistinct` | src/systemlens/domain/code_flows.py:83-110 | output ids are pairwise distinct, and length, order and everything but ids are kept |
| `UniqueIds.KeepsIdIffFree` | src/systemlens/domain/models.py:130-159 | an item keeps its id exactly when no earlier output carries it |
| `UniqueIds.ExtendsId` | src/systemlens/domain/models.py:130-159 | an id that was taken is extended by the digest |
| `UniqueIds.NewIdMeans` | src/systemlens/domain/code_flows.py:95-110 | an item whose id is in use gets its id with the digest, or that with the first number from 2 on that no item before it uses |
| `UniqueIds.DistinctUnchanged` | src/systemlens/domain/models.py:130-159 | distinct ids are left alone |
| `UniqueIds.Idempotent` | src/systemlens/domain/models.py:130-159 | a second pass changes nothing, whatever it digests |
| `KeptIds.KeptWhenUnlike` | src/systemlens/domain/code_flows.py:83-110 | an id survives beside earlier items that have another id and whose first candidate is no prefix of it |
| `KeptIds.LostWhenRepeated` | src/systemlens/domain/code_flows.py:83-110 | an id that is the first candidate of an earlier repetition is lost |
| `KeptIds.KeptIff` | src/systemlens/domain/code_flows.py:83-110 | an item keeps its id if and only if it is not displaced: no earlier item keeps that id, and it is no candidate that the items displaced before it use up, both counted on the input |
| `KeptIds.OnceKeptIff` | src/systemlens/domain/code_flows.py:83-110 | an id that occurs once survives if and only if the items displaced before it do not use it up |
| `KeptIds.FirstsKeptIff` | src/systemlens/domain/code_flows.py:83-110 | every first occurrence keeps its id if and only if none of them has an id that is invented for the repetitions before it; which ids are invented is counted on the input alone |
| `KeptIds.DigestsApart` | src/systemlens/domain/code_flows.py:102-107 | digests of eight digits keep candidates of different bases apart in lists of fewer than five million items |
| `KeptIds.HistoricalIdsKeptIff` | src/systemlens/domain/models.py:130-159 | the promise to preserve historical ids, for digests of eight digits in lists of fewer than five million items: exactly which items keep their ids, and when exactly an id that occurs once does |
| `KeptIds.SingleIdMayChange` | src/systemlens/domain/code_flows.py:83-110 | whatever the items are and whatever is digested, a list exists in which an id that occurs once changes |
| `MergeFacts.QualityOrder` | src/systemlens/domain/models.py:208-231 | the numeric quality orders facts by confidence, then status |
| `MergeFacts.QualityMeans` | src/systemlens/domain/models.py:208-231 | high, medium, low and unknown confidence decide in this order; confirmed, proposed and doubtful status only among facts of one confidence |
| `MergeFacts.MergeTakesBest` | src/systemlens/domain/models.py:212-243 | over any sequence of observations of one id: the highest quality, and the payload of the last observation that attains it |
| `MergeFacts.MergeNeedsOneId` | src/systemlens/domain/models.py:220-221 | merging fails exactly when two observations have different ids |
| `MergeFacts.MergeFills` | src/systemlens/domain/models.py:230-243 | a fillable field is given exactly when some observation gives it, and has the value of the last one to take it over |
| `MergeFacts.FieldsFill` | src/systemlens/domain/models.py:233-242 | path, line, note, technology, module, pass and revision are such fields |
| `MergeFacts.EntriesFill` | src/systemlens/domain/models.py:232-242 | so is every metadata entry |
| `MergeFacts.WeakerOnlyFills` | src/systemlens/domain/models.py:230-243 | a strictly weaker observation replaces nothing that is given |
| `DtoClosure.ClosureIsClosed` | src/systemlens/indexing/dto_inventory.py:269-309 | the set of definitions holds the roots and the references of its members |
| `DtoClosure.ClosureIsLeast` | src/systemlens/indexing/dto_inventory.py:269-309 | it is contained in every such set |
| `DtoClosure.Describe` | src/systemlens/indexing/dto_inventory.py:275-309 | one type: its definition, and the queue extended by exactly its other references |
| `DtoClosure.Treat` | src/systemlens/indexing/dto_inventory.py:271-309 | an iteration on a new type keeps the invariant and leaves fewer types to describe |
| `DtoClosure.DtoDefinitions` | src/systemlens/indexing/dto_inventory.py:256-309 | terminates with exactly the least closed set, each type described as its candidate says and computed once although it may be queued often |
| `DtoClosure.DefinitionTells` | src/systemlens/indexing/dto_inventory.py:275-309 | a known type lists for each field exactly what it mentions, in order |
| `ApmPages.NextPage` | src/systemlens/discovery/elastic_apm.py:116-142 | the next page continues where the last one ended, and is empty exactly when all has been read |
| `ApmPages.CompositeBuckets` | src/systemlens/discovery/elastic_apm.py:107-146 | every bucket once and in order when they fit into one page less than the maximum, a failure otherwise |
| `ApmPages.UnreadableServer` | src/systemlens/discovery/elastic_apm.py:107-146 | for every number of groups beyond 99 full pages there is a server that holds them, so the failing case of CompositeBuckets is met |
| `ApmFold.Collector.Add` | src/systemlens/discovery/elastic_apm.py:328-342 | the totals, the overflow set and the verdict after one bucket |
| `ApmFold.Collector.AddTransaction` | src/systemlens/discovery/elastic_apm.py:379-396 | one transaction bucket, its percentiles included |
| `ApmFold.Collect` | src/systemlens/discovery/elastic_apm.py:295-396 | fails exactly when one index has too many buckets, and otherwise folds every bucket of both once |
| `ApmTotals.RowsAreSums` | src/systemlens/discovery/elastic_apm.py:328-342 | a row exists exactly when a bucket is folded into it and holds their sum |
| `ApmTotals.NothingLost` | src/systemlens/discovery/elastic_apm.py:328-396 | per kind, the rows together hold exactly the calls, failures and durations of the buckets that are not dropped |
| `ApmTotals.OverflowRecorded` | src/systemlens/discovery/elastic_apm.py:332-334 | exactly the services of overflow buckets are recorded |
| `ApmTotals.FailuresAtMostCalls` | src/systemlens/discovery/elastic_apm.py:338-418 | failures never exceed calls, also after truncation to whole numbers |
| `ApmTotals.CountsArePlausible` | src/systemlens/discovery/elastic_apm.py:357-385 | buckets of both indexes meet the premise of the above |
| `ApmTotals.FirstPercentilesWin` | src/systemlens/discovery/elastic_apm.py:386-396 | a transaction row has the percentiles of the first bucket folded into it, a destination row none |
| `ApmLaws.RowSums` | src/systemlens/discovery/elastic_apm.py:328-396 | read off the buckets: calls to a target as it stands and transactions without their query, each row with the sums of its buckets; of calls to a target those with the outcome failure failed |
| `ApmLaws.LeftOutIff` | src/systemlens/discovery/elastic_apm.py:332-334 | a service is noted exactly if the server left out some of its groups |
| `ApmLaws.MissingCounted` | src/systemlens/discovery/elastic_apm.py:379-396 | exactly the transactions that count and lack a percentile are reported as incomplete |
| `ApmLaws.PercentilesOfFirst` | src/systemlens/discovery/elastic_apm.py:386-396 | of several transactions in one row the percentiles of the first one are shown |
| `RouteMatching.SegmentsSymmetric` | src/systemlens/domain/graph.py:123-173 | path segments match in both directions or in none |
| `RouteMatching.PathsSymmetric` | src/systemlens/domain/graph.py:395-422 | for topics, symmetry fails exactly when methods and segments match and one path alone is dynamic |
| `RouteLanguage.SharedIff` | src/systemlens/domain/graph.py:123-173 | two paths have a request path in common exactly if their segments match and the templates that meet no literal leave a value |
| `RouteLanguage.PathsMatchIff` | src/systemlens/domain/graph.py:395-422 | a call with a known path and a route have a request in common exactly if they match and their templates leave a value |
| `RouteLanguage.TopicReads` | src/systemlens/domain/graph.py:119-120 | a topic is read as the method and the segments it was written with; a query is ignored |
| `RouteSelection.BestExists` | src/systemlens/domain/graph.py:425-483 | every matching route has a rival of minimum rank |
| `RouteSelection.SelectsIffMatches` | src/systemlens/domain/graph.py:447-483 | something is selected exactly when something matches |
| `RouteSelection.OrderIrrelevant` | src/systemlens/domain/graph.py:447-483 | the selected set does not depend on order or repetition of the routes |
| `RouteSelection.SelectIdempotent` | src/systemlens/domain/graph.py:447-483 | selecting among the selected changes nothing |
| `RouteSelection.GroupKeeps` | src/systemlens/domain/graph.py:447-483 | for a call not ending in two stars a group keeps exactly its routes of minimum rank, or all when the minimum guesses |
| `RouteSelection.GroupByMethod` | src/systemlens/domain/graph.py:466-474 | the dictionary files each candidate under its method group |
| `RouteSelection.SelectFromGroup` | src/systemlens/domain/graph.py:475-482 | of one group, exactly the best or, if all guess, all |
| `RouteSelection.SelectMatchingRoutes` | src/systemlens/domain/graph.py:447-483 | with its groups and sets of ids: exactly the routes that the rules keep, in their order, for unique ids |
| `RouteSpecificity.SelectedIff` | src/systemlens/domain/graph.py:425-483 | exactly the matching routes of the topics that no competing route beats: by needing no guess, not ending in two stars, being the shorter of two that do, binding fewer literals, or naming the method |
| `RouteSpecificity.LiteralWins` | src/systemlens/domain/graph.py:434-444 | a literal in place of a template excludes the template route |
| `RouteSpecificity.WildcardLoses` | src/systemlens/domain/graph.py:432-444 | a route that ends in two stars loses to one that does not, and to a shorter one |
| `RouteSpecificity.MethodWins` | src/systemlens/domain/graph.py:466-482 | an explicit method excludes any method on an equal path |
| `RouteSpecificity.GuessLoses` | src/systemlens/domain/graph.py:475-482 | a route that needs a guess never survives beside one that needs none |
| `ServiceGraph.Builder.Emit` | src/systemlens/domain/graph.py:600-604 | an edge is added exactly when its key is new; no self edge |
| `ServiceGraph.ContractEdge` | src/systemlens/domain/graph.py:547-563 | decides exactly the calls whose contract one service alone answers, and gives them exactly the edge to the first route that answers; any other call goes on unchanged |
| `ServiceGraph.ServeEdges` | src/systemlens/domain/graph.py:572-604 | every route that a call without a deciding contract reaches in its service gets its edge; gateway calls get one per service |
| `ServiceGraph.NotedEmit` | src/systemlens/domain/graph.py:595-599 | the set of proxy targets notes exactly the services that gateway calls lead to |
| `ServiceGraph.RestPass` | src/systemlens/domain/graph.py:546-604 | the first pass: only edges that follow evidence, all of them, and at most one per gateway call |
| `ServiceGraph.ConfiguredPass` | src/systemlens/domain/graph.py:609-624 | a configured client whose host is indexed is connected with it by a route or by a marker |
| `ServiceGraph.ExternalPass` | src/systemlens/domain/graph.py:629-637 | every service outside that a call names is connected with it |
| `ServiceGraph.IndexConsumers` | src/systemlens/domain/graph.py:525-540 | the index files exactly the static consumers, manifest precedence applied |
| `ServiceGraph.KafkaPass` | src/systemlens/domain/graph.py:642-653 | the keys added are exactly those of the nested-loop join |
| `ServiceGraph.BuildGraph` | src/systemlens/domain/graph.py:486-655 | no self edge, no key twice; three parts with their reasons, contract calls that fall through to their hint included; nothing missing; for distinct call ids no call of the first part leads to two services; Kafka keys exactly those of static same-topic pairs of distinct services without type conflict |
| `GraphLaws.MessagesCarried` | src/systemlens/domain/graph.py:642-653 | read off the endpoints: every producer has an edge to every consumer of its topic in another service whose type does not conflict, manifests replacing code |
| `GraphLaws.CarriedIsExchange` | src/systemlens/domain/graph.py:642-653 | every Kafka edge runs from such a producer to such a consumer |
| `GraphLaws.DesignatedIff` | src/systemlens/domain/graph.py:547-571 | the service a call is led to: the one that alone answers its contract, otherwise the one its hint alone names |
| `GraphLaws.RouteEdgeMeans` | src/systemlens/domain/graph.py:546-604 | every edge to a route comes from a call led to its service that selects the route or adopts it, and shows that call |
| `GraphLaws.RoutesHaveEdges` | src/systemlens/domain/graph.py:546-604 | every such route has its edge; a gateway call has one per service |
| `GraphLaws.GatewayHasOneEdge` | src/systemlens/domain/graph.py:594-599 | a gateway call with an id of its own has one edge to a route at most |
| `GraphLaws.HostEdgeMeans` | src/systemlens/domain/graph.py:609-637 | an edge without a route comes from a call that names a service outside, or an indexed host to which no route leads it |
| `GraphLaws.HostsHaveEdges` | src/systemlens/domain/graph.py:609-637 | every call that names one is connected with it |
| `ContractCalls.LeadsIntoIff` | src/systemlens/domain/graph.py:546-604 | for distinct call ids, the first part leads a call into a service exactly if the call reaches one of its routes on its evidence |
| `ContractCalls.UnresolvedIff` | docs/spec-tech/extractors.md:28-34 | the promise that a call whose contract not exactly one service answers stays unresolved is broken if and only if a hint alone leads the call to a route |
| `ContractCalls.StraysIff` | src/systemlens/domain/graph.py:547-604 | a call with a contract is led into a service that does not answer it if and only if it falls through to such a service |
| `ContractCalls.DynamicIsNeverAnswered` | src/systemlens/domain/graph.py:403-407 | no service ever answers the contract of a call with a dynamic path, so that it always falls through |
| `ContractCalls.HintOverridesContract` | src/systemlens/domain/graph.py:547-604 | the smallest such workspace: a configured client with a contract is led to a route that serves no contract |
| `ServiceGraph.OneServicePerCall` | src/systemlens/domain/graph.py:546-604 | among edges that follow evidence, and for distinct call ids, those from one call lead to one service |
| `SiteOrder.Shared` | src/systemlens/application/flow_consistency.py:163-171 | the number of leading steps that two departures share |
| `SiteOrder.FindOrder` | src/systemlens/application/flow_consistency.py:144-180 | the order of two sites with its evidence |
| `SiteOrder.Antisymmetric` | src/systemlens/application/flow_consistency.py:144-180 | swapping the sites negates the verdict and keeps the evidence |
| `SiteOrder.BeforeIsEarlier` | src/systemlens/application/flow_consistency.py:144-180 | every verdict agrees with one strict total order of departures |
| `SiteOrder.NoCircle` | src/systemlens/application/flow_consistency.py:144-180 | verdicts along any chain of sites never lead back to its start |
| `StaleLaws.OrderIff` | src/systemlens/application/flow_consistency.py:144-180 | exactly when one departure counts as first, and the two lines that show it |
| `StaleReads.BranchSites` | src/systemlens/application/flow_consistency.py:131-142 | exactly the steps of the fork flows at which the branch leaves, in the order of the flows and of their steps |
| `StaleReads.CompareSites` | src/systemlens/application/flow_consistency.py:236-240 | whether some pair of sites puts the write first, with the lines of the first such pair, and whether any pair is ordered |
| `StaleReads.RiskMeans` | src/systemlens/application/flow_consistency.py:236-241 | the evidence shown is that of two departures from the common handler of which the write comes first |
| `StaleReads.Judge` | src/systemlens/application/flow_consistency.py:216-244 | dismissed exactly when departures are ordered and all put the read first, a risk exactly when some put the write first |
| `StaleLaws.JudgedIff` | src/systemlens/application/flow_consistency.py:205-229 | read off steps and paths: which pairs are judged; after the hops both paths share, the write crosses Kafka and the read stays on REST |
| `StaleLaws.VerdictIff` | src/systemlens/application/flow_consistency.py:216-244 | the verdict on every pair, from the steps of the common handler at which each path leaves it |
| `StalePasses.CallGraphStaleReads` | src/systemlens/application/flow_consistency.py:183-272 | exactly the paired accesses are recorded; each is reported with its finding, its rating and the evidence of the first pair of departures with the write first, unless dismissed |
| `StaleLaws.JudgedIsReported` | src/systemlens/application/flow_consistency.py:239-272 | every judged pair is recorded, and reported with its steps, lines and key unless all departures put the read first |
| `StaleLaws.ReportedIsJudged` | src/systemlens/application/flow_consistency.py:239-272 | nothing else is recorded or reported |
| `StalePasses.IndexReads` | src/systemlens/application/flow_consistency.py:389-399 | the three indexes file exactly the reads they are for |
| `StalePasses.CandidateReads` | src/systemlens/application/flow_consistency.py:401-416 | the candidates of a write are those without resource, with its resource or with its identity, or all when it is not identified |
| `StalePasses.IndexMisses` | src/systemlens/application/flow_consistency.py:401-416 | a pair that the scan of all pairs would keep is missed exactly when the write is identified and the read names another resource without identity |
| `StalePasses.LabelPass` | src/systemlens/application/flow_consistency.py:429-437 | exactly the candidate pairs under a common root that are not decided and not excluded |
| `StaleLaws.RemainsIff` | src/systemlens/application/flow_consistency.py:401-437 | exactly the filed pairs that were not judged before and are not proven to touch different resources or keys |
| `StalePasses.Diagnose` | src/systemlens/application/flow_consistency.py:361-479 | no triple is judged by both passes, and none is lost in between |

## Left out

- BuildDependencyGraph: of several declarations with one id, it does not state which one gives the node its name; the confidence of an edge and the warnings about configured clients without a host are not stated.
- HistoricalIdsKeptIff: for longer lists the condition is that of KeptIff with its premise that no base is another base with a counter.
- FreeRivalMisleads: a rival whose own initializer is known may happen to hold the traced value; only for rivals and writes that may bring any value is another value shown.
- ProjectMayLoseFlows: the filter by available call sites is any choice of the joined flows; merging them with the flows of single files is not modelled.
- BuildGraph: the exact list is stated through keys and reasons; the order of edges within a part is not.
- CandidateReads: repeated candidates of one flow and position are kept, as only membership matters for the second pass.
- CallGraphStaleReads: the texts of limitations are not modelled.
- LabelPass: which pairs are judged and under which roots; the labels that classify a pair afterwards are not modelled.
- OriginSound: assumes what the parser cannot check: no variable-arity calls, no numeric coercion of arguments and initializers, declared names are spelled without Unicode escapes, paths are already normalised, and the located declarations are those of the route. The fields that an anonymous class inherits are given, as its text does not show them.
- RouteFollowedIffClear: the programs with one text range over all bindings that blocks can give names; that a variable which an inner member reads must never be assigned is not used.
- TraceSound: the call of each hop is the sole invocation of that name spanning the call line.
- Collect: error groups, observation ids and the sorted list of rows are not modelled; counts are reals.
- RunCallGraphStage: metadata and the flow table only; the tables of methods and edges, progress reports, clocks and the engines are not. The checkpoint is the only commit inside the stage.
- LoadFactManifest: one absent result stands for every error message; paths follow the POSIX rules; documents contain no floating-point numbers.
- FindMicroservicePaths: the two references are already resolved to application modules.
- MicroserviceImpactPaths: nodes keep their kind, which the code drops because all are services.
- TraceTopicFlows: the casefolded lookup of the topic is not modelled.
- ShowTree: the fields of a shown flow beyond those of its tree are not modelled.
- DtoDefinitions: the roots and the resolved types of each field are given; parsing Java sources and resolving names are not modelled.
- BuildFlowIndex: the grouping of endpoints by system and topic only; the role is checked by FlowChildren, as in the code.
- Regular expressions that classify topics, hosts, message types and markers are parameters of the model, deterministic but otherwise arbitrary.
- Hash functions are arbitrary functions; nothing assumes that they are free of collisions.
- SQLite, HTTP clients, file walking, tree-sitter, the command line, the web server and all rendering.
- Summaries, audits, hotspot ranking, diagnostics of branch reviews and the direct-flow manifest: they only select from the facts and graphs above or present them.
