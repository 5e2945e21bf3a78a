# Verified models of the SecureBuild worker's core logic

This project models, in Dafny, the parts of SecureBuild whose correctness depends on
more than one function, and proves what they promise for every input, every run and
every interleaving. `dafny verify dfyconfig.toml` checks all of it.

**Build graph** (`Strings`, `Graph`, `Dependencies`, `TarjanInvariant`, `Tarjan`,
`BfsOrder`, `BuildGraph`, `BfsDistance`, `BuildGraphTheorems`, `Dependents`, `BuildNames`,
`Reduction`, `Kahn`, `BitRows`, `ReduceEdges`, `BuildDag`). A possibly cyclic package map is
turned into an acyclic graph of builds. `Graph` holds walks and reachability. Each stage of
the compiler is a method with the source's own loops and mutable state (the explicit stack,
Tarjan's object, the breadth-first queue, the in-degree array, the rows of 64-bit words),
proved against a relation; `BuildGraph` gives the result as a relation of the adjacency
relation alone, and `BuildGraphTheorems` and `Reduction` say what that relation guarantees.
`BfsDistance` says with walks alone what the positions in a component are, and `Dependents`
which build of a package its dependents wait for. A build is a pair (package, second pass)
in these theorems; the methods, like the code, return the strings `pkg` and `pkg#2`.
`BuildNames` relates the two: `NodeNamesDistinct` says exactly when the strings tell builds
apart, and `NamedBuildGraph` that the returned graph is then the reduced build graph by
name.

**Scan publication and cleanup** (`ObjectKeys`, `ScanDb`, `ScanProtocol`, `ScanInvariant`,
`ScanTheorems`, `ScanReadability`, `ScanLeases`, `ScanAdoption`, `ScanStatus`, `ScanRows`,
`ScanOutcomes`, `ScanStore`). `ScanDb` gives each committed transaction as a function on the
scan and generation rows. `ScanProtocol` interleaves them freely with single object uploads
(which may fail, fail after storing, or land much later) and single object deletes, for any
number of claimers, publishers, failure reporters and cleanup workers. `ScanInvariant`
proves that every step keeps one invariant. `ScanTheorems` draws the conclusions for all
runs, `ScanReadability` says what readers get, `ScanLeases` what leases, retention and grace
periods promise over runs, `ScanStatus` and `ScanRows` which step each part of a row and
each object comes from, `ScanOutcomes` what transactions answer and workers do next, and
`ScanStore` performs the transactions statement by statement on mutable tables and proves
that they are those functions; its `PublishSuccessfulScan` is proved to be a run of one
publisher of the machine. Times are parameters of the steps and arbitrary; only `ScanLeases`
asks, in its premises, that the times of a run lie within a period. What the protocol takes
as given is in the guards of the machine: a generation id becomes current for a scan at most
once, and publication starts after that claim. Adoption of directories without a generation
does not keep ids fresh by itself: `ScanAdoption` has the machine with that step as the code
takes it, the exact condition under which it makes no difference, and a run in which it
loses an object of the selected generation (see below). `ConfigOk` asks that digests and
architectures hold no slash and that no two tracked digests differ only in the algorithm
prefix, which is sufficient for keys to be distinct; `AlgorithmsCollide` and
`SlashesCollide` give inputs outside it whose keys coincide (not every slash makes one).

**Version keys** (`Text`, `SemVer`, `VersionKey`). `SemVer` holds the version grammar with a
parser proved sound and complete, and precedence as section 11 of Semantic Versioning 2.0.0
defines it, on numbers and identifier lists. `VersionKey` computes the key and proves that
byte order of keys is precedence.

**Package index** (`ApkIndex`, `ApkEdits`, `ApkRevisions`). The text of an index, its round
trip with defaults, merging and filtering, and the edits that go through it.

**Smaller machines**: the dependency-gated rebuild queue with its version ranking
(`BuildQueue`, for any number of overlapping passes over the queue), host-key pinning
(`HostKey`) and the single-flight release cache (`ReleaseCache`).

## Where the code falls short

The model follows the code in each case.

- pkg/listener/update-external-image-scan-status.go:133-160 adopts a directory under the
  same derived id at every poll, and a deletion claim (pkg/externalimage/cleanup.go:355-367)
  takes the current generation from a scan without ending its run. So an id whose
  publication lasted longer than its lease can be claimed, cleaned up, adopted again and
  selected, while an earlier cleaner whose lease ran out still deletes its objects:
  `ReusedGenerationLosesObject` is that run. Adoption accepts a used id exactly for scans
  that are running without an owner and had one before (`FreshIff`); exactly two steps bring
  a scan there (`ExposedIff`): a deletion claim that takes the generation of a running scan,
  and a report of status running without a generation. Every run without such a step is a
  run of the machine with fresh ids (`ReadoptingIsFresh`). All other theorems about scans
  are about that machine.
- A package that is named like the second build of another (`a#2`) shares its node with it.
  The graph of names can then have a cycle, and the result is a graph without edges:
  `CollidingNamesCycle` gives such a map, and the contract of `BuildDAG` says when it
  happens.
- pkg/buildqueue/buildqueue.go:23-165 lets passes of several processes overlap. They may
  then share a row and build it twice, as `SharedRowStartsTwice` shows; `ReadyKeptIff` says
  exactly which steps do harm, and `StartsAfterDependencies` what holds all the same.
- pkg/buildpriority/priority.go:50-51 writes the length of a numeric identifier in ten
  digits, so keys order versions with numeric identifiers shorter than ten billion digits,
  and no further (`OrderedIffTenBillion`).
- The comment on `Edge` (pkg/buildgraph/build_ordering.go:17-20) promises an edge from `pkg`
  to `pkg#2` for every package of a cycle. The code adds it for self-loops only
  (`DirectSecondPass`), and `SecondBuildMayComeFirst` gives a component in which the second
  build of a package does not wait for its first. `TwoPassMeaning` says exactly when one
  does.
- The comment at pkg/buildgraph/build_ordering.go:22-23 promises a stable order of the
  returned lists. They are filled by ranging over maps; the contracts fix the node set and
  the edge set (without duplicates), which depend only on the adjacency relation.
- pkg/apk/index.go writes a field that is only white space as an empty one, so writing is
  not always settled after one pass; `NormalisedOnceIff` gives the exact condition.

## Model

| member | source | states |
|---|---|---|
| Dependencies.CollectReachable | pkg/buildgraph/build_ordering.go:344-357 | The worklist returns exactly the packages that some dependency walk from the start reaches. |
| Strings.SortIncreasing | pkg/buildgraph/build_ordering.go:334-341 | Sorting the keys of a set yields its only strictly increasing enumeration. |
| Strings.SortedKeys | pkg/buildgraph/build_ordering.go:360-367 | The keys in increasing byte order, each once. |
| Tarjan.TarjanData.PopDownTo | pkg/buildgraph/build_ordering.go:404-413 | Popping to v takes the part of the stack from v upward, in reverse, and clears exactly its onStack marks. |
| Tarjan.TarjanData.ScanSuccessor | pkg/buildgraph/build_ordering.go:389-401 | Scanning one successor keeps the state of the open call: low is a lower bound of what the scanned part reaches on the stack, and is itself reached. |
| Tarjan.TarjanData.StrongConnect | pkg/buildgraph/build_ordering.go:383-418 | The recursive call terminates, numbers v, keeps Tarjan's invariant, emits only whole components, and leaves v on the stack only with a low link below its own number that v reaches. |
| TarjanInvariant.PoppedIsComponent | pkg/buildgraph/build_ordering.go:403-417 | A root's part of the stack is a whole strongly connected component. |
| TarjanInvariant.PopInv | pkg/buildgraph/build_ordering.go:403-417 | Removing that part keeps every clause of the invariant. |
| Tarjan.ComputeSCCs | pkg/buildgraph/build_ordering.go:423-444 | The components partition the reachable packages, two packages share one iff each reaches the other, compID numbers them, and every edge between components goes to an earlier one. |
| BfsOrder.BfsFrom | pkg/buildgraph/build_ordering.go:293-331 | The queue loop with repeated names computes the breadth-first order that is a function of the relation only. |
| BfsOrder.CollectGateways | pkg/buildgraph/build_ordering.go:271-281 | Exactly the members of the component with an edge from outside it. |
| BfsOrder.ComputeBfsOrder | pkg/buildgraph/build_ordering.go:252-289 | The order of a component depends on the relation, the reachable set, the component and the entry, not on lists. |
| BfsOrder.NothingMissed | pkg/buildgraph/build_ordering.go:322-329 | From any start inside a strongly connected component the visit is complete: the append of missed nodes never happens, and every visited node has its predecessor before it. |
| BuildGraph.GatewayExists | pkg/buildgraph/build_ordering.go:282-288 | A reachable component without the entry has a gateway: the lexicographic fallback never happens. |
| BuildGraph.OrderComplete | pkg/buildgraph/build_ordering.go:252-331 | The order of every reachable component is a complete breadth-first visit from the entry or the gateways. |
| BuildGraph.PosInjective | pkg/buildgraph/build_ordering.go:75-84 | Different members of a component have different positions. |
| BuildGraph.EntryFirst | pkg/buildgraph/build_ordering.go:265-268 | The entry has position 0. |
| BfsDistance.HasDistance | pkg/buildgraph/build_ordering.go:252-331 | Every reachable package is reached by a shortest walk inside its component from the entry or from a member that another component points at. |
| BfsDistance.NearerFirst | pkg/buildgraph/build_ordering.go:293-331 | Inside a component a package at a smaller such distance has a smaller position. |
| BfsDistance.SourcesFirst | pkg/buildgraph/build_ordering.go:265-285 | The starts, all of them, come before every other member, in byte order among themselves. |
| BfsDistance.FoundEarlier | pkg/buildgraph/build_ordering.go:293-331 | Every other member comes after a first predecessor in its component. |
| BfsDistance.InOrderFound | pkg/buildgraph/build_ordering.go:306-318 | Other members come in the order of their first predecessors, and in byte order when those agree; with SourcesFirst this determines every position. |
| BuildDag.NeedsSecondPass | pkg/buildgraph/build_ordering.go:447-458 | A component is cyclic iff it has two members or a self-loop. |
| BuildDag.CyclicComponent | pkg/buildgraph/build_ordering.go:447-458 | That is exactly when its packages lie on a cycle of the relation. |
| BuildDag.LayOut | pkg/buildgraph/build_ordering.go:74-84 | The flag and the position recorded for every reachable package are those of the relation. |
| BuildDag.CreateNodes | pkg/buildgraph/build_ordering.go:87-92 | The names of one build of every reachable package and of a second one of exactly the packages on cycles, without duplicates. |
| BuildDag.AddDependency | pkg/buildgraph/build_ordering.go:96-132 | One dependency adds exactly the edges that its case prescribes, by name. |
| BuildDag.CreateEdges | pkg/buildgraph/build_ordering.go:95-133 | The edges are exactly the build relation by name, without duplicates and without edges from a name to itself, in whatever order packages are visited. |
| BuildDag.BuildUnreduced | pkg/buildgraph/build_ordering.go:41-136 | Nodes and edges before reduction are the names of the builds and of the build relation. |
| BuildDag.BuildDAG | pkg/buildgraph/build_ordering.go:35-39 | The names of the builds; nil edges iff the build relation by name has a cycle, otherwise its transitive reduction, in which each dependent in another component comes after the last build of the package. While no reachable package is named like a second build, never nil, and the reduced build relation by name. |
| BuildDag.OnlyTheRelationMatters | pkg/buildgraph/build_ordering.go:35-135 | Two maps with the same successor sets give the same node set and edge set. |
| BuildDag.ReducedBuildGraph | pkg/buildgraph/build_ordering.go:35-39 | After reduction builds precede each other as before, the entry's first build is a source and reaches every build. |
| BuildGraphTheorems.EdgeBefore | pkg/buildgraph/build_ordering.go:103-131 | Along every edge the rank (component order, pass, position) grows. |
| BuildGraphTheorems.BuildGraphAcyclic | pkg/buildgraph/build_ordering.go:26-34 | The relation on builds, as pairs of package and pass, is acyclic for any map and entry. |
| BuildGraphTheorems.HasPredecessor | pkg/buildgraph/build_ordering.go:95-133 | Every build but the entry's first has a direct predecessor. |
| BuildGraphTheorems.EntryIsSource | pkg/buildgraph/build_ordering.go:95-133 | No edge leads to the entry's first build. |
| BuildGraphTheorems.EntryReachesAll | pkg/buildgraph/build_ordering.go:86-133 | Every build, of either pass, comes after the entry's first build. |
| BuildGraphTheorems.TwoPassMeaning | pkg/buildgraph/build_ordering.go:116-125 | Inside a component the first build of u precedes the second build of v iff some walk from u to v inside it has exactly one edge that does not increase the position. |
| BuildGraphTheorems.DirectSecondPass | pkg/buildgraph/build_ordering.go:104-108 | A direct edge from first to second build exists iff the package has a self-loop. |
| BuildGraphTheorems.SecondBuildMayComeFirst | pkg/buildgraph/build_ordering.go:17-20 | A map in which a package is built twice and its second build does not wait for the first. |
| Dependents.WaitsForDependencies | pkg/buildgraph/build_ordering.go:95-133 | Builds wait directly for builds of packages that point at theirs, and second builds are of packages on cycles. |
| Dependents.CrossingEdges | pkg/buildgraph/build_ordering.go:126-131 | Between components exactly the last build of a package precedes the first build of a dependent. |
| Dependents.InnerEdges | pkg/buildgraph/build_ordering.go:109-125 | Inside a component, of packages at different distances, the farther waits pass by pass for the nearer, and the second build of the nearer for the first of the farther. |
| Dependents.SecondWaitsForAll | pkg/buildgraph/build_ordering.go:103-125 | A second build waits directly for a build of each predecessor in its component. |
| Dependents.DependentsWait | pkg/buildgraph/build_ordering.go:126-131 | After reduction too, the first build of a dependent in another component comes after the last build of the package. |
| BuildNames.NodeNamesDistinct | pkg/buildgraph/build_ordering.go:46-51 | The node names are distinct iff no reachable package is named like the second build of a reachable package on a cycle. |
| BuildNames.NamedReduced | pkg/buildgraph/build_ordering.go:141-241 | Where names are distinct, reducing the edges by name is naming the reduction. |
| BuildNames.NamedBuildGraph | pkg/buildgraph/build_ordering.go:41-59 | With distinct names the graph of names is acyclic, orders names as the build relation orders builds, and its reduction is the reduced build relation by name. |
| BuildNames.NamedDependentsWait | pkg/buildgraph/build_ordering.go:126-131 | So it does by name, in every result with edges. |
| BuildNames.CollidingNamesCycle | pkg/buildgraph/build_ordering.go:46-59 | With a -> b and b -> a, a#2 the graph of names has a cycle. |
| Reduction.ReducedSameReach | pkg/buildgraph/build_ordering.go:223-240 | On an acyclic relation the reduction has the same reachability. |
| Reduction.ReducedIrredundant | pkg/buildgraph/build_ordering.go:223-240 | No edge of the reduction can be removed without losing reachability. |
| Reduction.ReducedLeast | pkg/buildgraph/build_ordering.go:138-140 | Every relation with the same reachability contains the reduction: it is the unique transitive reduction. |
| Kahn.TopologicalOrder | pkg/buildgraph/build_ordering.go:177-193 | The in-degree loop emits distinct nodes, every one after its predecessors, and each node it leaves out has a predecessor that it leaves out. |
| BitRows.AddDescendants | pkg/buildgraph/build_ordering.go:211-216 | Or-ing the words of v into u and setting bit v adds exactly v and v's members to row u and touches no other row. |
| BitRows.Test | pkg/buildgraph/build_ordering.go:231 | The shifted word tells membership. |
| ReduceEdges.BuildAdjacency | pkg/buildgraph/build_ordering.go:166-172 | The lists hold exactly the edges, and in-degrees count them. |
| ReduceEdges.LeftoverCycle | pkg/buildgraph/build_ordering.go:194-197 | When a node is left out of the topological order, the edges have a cycle. |
| ReduceEdges.FillRow | pkg/buildgraph/build_ordering.go:208-218 | A row filled after its children holds exactly the descendants. |
| ReduceEdges.IsRedundant | pkg/buildgraph/build_ordering.go:226-235 | An edge is dropped iff another path joins its ends. |
| ReduceEdges.Reduce | pkg/buildgraph/build_ordering.go:141-241 | nil iff the edges have a cycle; otherwise exactly the edges of the transitive reduction, in input order, without duplicates when the input has none. |
| ObjectKeys.KeysInjective | pkg/externalimage/blobstore.go:41-59 | For slash-free parts two keys are equal iff they name the same object of the same image, across legacy, generation and SBOM keys. |
| ObjectKeys.KeysSpelled | pkg/externalimage/blobstore.go:17-59 | The five keys in full. |
| ObjectKeys.AlgorithmsCollide | pkg/externalimage/blobstore.go:17-22 | Digests that differ only in the algorithm share every key. |
| ObjectKeys.SlashesCollide | pkg/externalimage/blobstore.go:41-51 | A slash in an architecture makes a legacy key a generation key. |
| ScanInvariant.InitInv | pkg/externalimage/publication.go:169-241 | The invariant holds before any publication, with any legacy objects and claims. |
| ScanInvariant.SetRunningInv | pkg/externalimage/externalimage.go:206-232 | Marking a scan running keeps the invariant. |
| ScanInvariant.ClaimInv | pkg/externalimage/externalimage.go:238-291 | A claim of several architectures keeps it. |
| ScanInvariant.AdoptLegacyInv | pkg/externalimage/externalimage.go:297-333 | Adoption under an id that is fresh or current keeps it; see ScanAdoption for adoption under any id. |
| ScanInvariant.RequeueInv | pkg/externalimage/externalimage.go:338-370 | Requeueing keeps it. |
| ScanInvariant.InitializeQueuedInv | pkg/externalimage/externalimage.go:587-609 | Initialisation keeps it. |
| ScanInvariant.ReportInv | pkg/externalimage/externalimage.go:635-708 | A reported failure or status, with or without generation, keeps it. |
| ScanInvariant.NewCandidateOk | pkg/externalimage/publication.go:117-167 | A new candidate carries its own keys and the sizes and hashes of its own bytes. |
| ScanInvariant.EnsuredRow | pkg/externalimage/publication.go:169-241 | What an accepted ensure step leaves: the same metadata as the candidate, the state it reports, and no live row in a retired state. |
| ScanInvariant.EnsureInv | pkg/externalimage/publication.go:169-241 | The ensure step keeps the invariant. |
| ScanInvariant.PutInv | pkg/externalimage/publication.go:300-325 | An upload keeps it, whether it succeeds, fails after storing or fails outright. |
| ScanInvariant.LatePutInv | pkg/externalimage/publication.go:314-321 | An upload that lands at any later time keeps it. |
| ScanInvariant.MarkInv | pkg/externalimage/publication.go:243-298 | The guarded mark as validated or failed keeps it. |
| ScanInvariant.RereadInv | pkg/externalimage/publication.go:266-298 | Adopting a validated or selected state after losing the mark keeps it. |
| ScanInvariant.SelectInv | pkg/externalimage/publication.go:341-453 | Selection, with the supersession of the previous generation, keeps it. |
| ScanInvariant.ClaimDeletionsInv | pkg/externalimage/cleanup.go:236-386 | A deletion claim with repair and revocation keeps it, and everything claimed is retired. |
| ScanInvariant.DeleteCandidateObjectInv | pkg/externalimage/cleanup.go:177-188 | Deleting an object of a claimed generation harms no live generation. |
| ScanInvariant.DeleteMetadataInv | pkg/externalimage/cleanup.go:407-458 | Removing rows under their claim's lease keeps it. |
| ScanInvariant.ClaimLegacyInv | pkg/externalimage/legacy_cleanup.go:73-104 | A legacy claim keeps it; everything claimed has a selection. |
| ScanInvariant.DeleteLegacyObjectInv | pkg/externalimage/legacy_cleanup.go:122-149 | Deleting legacy objects harms no generation object. |
| ScanInvariant.CompleteLegacyInv | pkg/externalimage/legacy_cleanup.go:151-187 | Completing legacy cleanup keeps it. |
| ScanInvariant.ScheduleLegacyInv | pkg/externalimage/legacy_cleanup.go:281-299 | Scheduling keeps it. |
| ScanInvariant.PutSbomInv | pkg/externalimage/blobstore.go:57-59 | Writing an SBOM harms no scan object. |
| ScanInvariant.ApplyInv | pkg/externalimage/publication.go:455-467 | Every step of every worker keeps the invariant. |
| ScanTheorems.SelectedIsComplete | pkg/externalimage/publication.go:341-453 | In every reachable state the selected generation has a row in state selected, no deadline, and both objects stored with the recorded size and hash under its own keys. |
| ScanTheorems.SelectedIffPointedAt | pkg/externalimage/publication.go:425-442 | In every reachable state a row is in state selected iff its scan points at it, so there is at most one. |
| ScanTheorems.RetiredForever | pkg/externalimage/cleanup.go:308-385 | With fresh ids (ScanAdoption.ReadoptingIsFresh), a generation neither current nor selected, once it was current, is never selected again in any run. |
| ScanTheorems.NeverSelectedAgain | pkg/externalimage/publication.go:216-221 | With fresh ids, a generation seen superseded or deleting, or claimed for deletion, is not selected in any later state. |
| ScanReadability.ReadableForever | pkg/externalimage/fixed_counts_backfill.go:250-262 | Raw results and details once readable stay readable in every later state: the same legacy bytes while nothing is selected, and afterwards bytes of the size and hash that the selected row records. |
| ScanReadability.LegacyObjectStays | pkg/externalimage/legacy_cleanup.go:122-149 | No step rewrites a legacy object, and none deletes it while no legacy worker has claimed its scan. |
| ScanTheorems.ShowsLastPublished | pkg/externalimage/externalimage.go:627-628 | After any run a scan shows the generation, compact results and completion time of the last successful selection in it, and otherwise what it showed before. |
| ScanStatus.PublishesIff | pkg/externalimage/publication.go:353-386 | A selection publishes iff its generation owns the scan, its row is validated or selected, it is not selected already, and the SBOM row is there. |
| ScanStatus.StatusIsLastSet | pkg/externalimage/externalimage.go:206-291 | After any run status and status time are those of the last step that set them: Running by a restart or successful claim, Queued by a requeue or initialisation, the reported one by a recorded report, Succeeded by a selection; each step's condition is spelled out on the rows. |
| ScanStatus.OwnerIsLastAssigned | pkg/externalimage/externalimage.go:206-370 | After any run the current generation is that of the last restart, claim or adoption, unless a requeue or a deletion claim took it away since. |
| ScanStatus.StepRest | pkg/externalimage/publication.go:388-407 | Creation time and the object-store mark: set on insertion and by a selection only. |
| ScanRows.LegacyIsLastSet | pkg/externalimage/publication.go:388-407 | After any run the legacy deadline is the one set last: exactly 24 hours by the first selection or by scheduling, five minutes by a claim, none after completion under the lease. |
| ScanRows.RowIsLastSet | pkg/externalimage/publication.go:169-286 | After any run a generation row is what the last ensure, mark, selection, supersession, deletion claim or removal made of it, with deadlines of exactly 24 hours, one hour or five minutes. |
| ScanRows.ObjectIsLastStored | pkg/externalimage/publication.go:300-325 | After any run an object is the one stored last under its key, unless a cleaner deleted it since. |
| ScanRows.DeletedBeforeDone | pkg/externalimage/cleanup.go:177-193 | A cleanup worker counts an object as deleted only after its delete step, so rows go only after their objects. |
| ScanOutcomes.TakeAnswers | pkg/externalimage/externalimage.go:238-333 | A claim succeeds iff every scan is free, an adoption iff every scan has that owner or runs without one. |
| ScanOutcomes.ReportAnswers | pkg/externalimage/externalimage.go:635-708 | A report is accepted iff it comes from the owner, or names no generation while nothing owns a run. |
| ScanOutcomes.EnsureAnswers | pkg/externalimage/publication.go:169-241 | The state that the ensure step reports, and when it refuses. |
| ScanOutcomes.SelectAnswers | pkg/externalimage/publication.go:353-386 | When a selection is made, found made already, or refused. |
| ScanOutcomes.CandidateAnswers | pkg/externalimage/publication.go:134-167 | A candidate exists iff the generation has a name and all three results are valid JSON. |
| ScanOutcomes.StepMoves | pkg/externalimage/publication.go:288-339 | Where each step leads a publisher: uploads and a mark unless the row is validated already, the state of another publisher after losing the mark, selection only then. |
| ScanOutcomes.BatchClaimed | pkg/externalimage/cleanup.go:311-340 | A deletion claim takes exactly the visible unselected rows whose deadline is over, with their keys and a lease of five minutes. |
| ScanOutcomes.LegacyClaimed | pkg/externalimage/legacy_cleanup.go:73-104 | A legacy claim takes exactly the visible scans whose grace is over and whose selected row is valid. |
| ScanTheorems.ClaimAllOrNothing | pkg/externalimage/externalimage.go:234-291 | A claim takes every requested architecture or changes nothing, and never changes a shown result or another row. |
| ScanTheorems.ClaimExcludes | pkg/externalimage/externalimage.go:264-284 | Directly after a claim, a claim that shares an architecture is refused while the first is not stale. |
| ScanTheorems.ClaimFences | pkg/externalimage/externalimage.go:264-284 | Directly after a claim no other generation, and no caller without one, can select, report, requeue or adopt the scan. |
| ScanLeases.EnsureProtects | pkg/externalimage/publication.go:222-234 | In every run whose times lie within 24 hours of an accepted ensure step, and in which the generation is neither marked nor superseded, no deletion claim takes it, and its row stays. |
| ScanLeases.MarkProtects | pkg/externalimage/publication.go:243-262 | In every run within an hour of a mark no deletion claim takes the candidate, whatever else happens. |
| ScanLeases.MarkShortensLease | pkg/externalimage/publication.go:243-262 | An hour after a mark a claim does take the candidate and its scan loses it, however recently it was ensured. |
| ScanLeases.SupersessionProtects | pkg/externalimage/publication.go:425-442 | In every run within an hour of a selection no deletion claim takes the generation that it superseded. |
| ScanLeases.ClaimLeaseHolds | pkg/externalimage/cleanup.go:308-320 | In every run within five minutes of a deletion claim no other claim takes its rows. |
| ScanLeases.StaleClaimRemovesNothing | pkg/externalimage/cleanup.go:407-458 | Once a row does not carry a claim's lease, that claim can remove it in no later state of a run whose deletion claims come after it. |
| ScanLeases.ClaimHolds | pkg/externalimage/externalimage.go:264-284 | Over any run in which no report, requeue or selection ends a claimed run, every claim that shares the architecture is refused while the first is not stale. |
| ScanLeases.FencedForever | pkg/externalimage/externalimage.go:264-284 | A generation that lost its scan can select, report and requeue in no later state of any run with fresh ids. |
| ScanLeases.LegacyGrace | pkg/externalimage/publication.go:388-407 | In every run whose legacy claims come within 24 hours of a scan's first selection its legacy objects stay as they are, through later selections too. |
| ScanAdoption.FreshIff | pkg/externalimage/externalimage.go:312-322 | Every id that adoption accepts for a scan is fresh or current iff the scan is not running without an owner after having had one. |
| ScanAdoption.ExposedIff | pkg/externalimage/cleanup.go:355-367 | A step brings a scan into that state iff it is a deletion claim that takes the generation of a running scan, or a report of status running without a generation. |
| ScanAdoption.ReadoptingIsFresh | pkg/listener/update-external-image-scan-status.go:133-160 | Runs without such a step, with adoption under any id, are runs of the machine with fresh ids. |
| ScanAdoption.ExposedReadopts | pkg/listener/update-external-image-scan-status.go:133-160 | In such a state some adoption makes a generation current again, which the machine with fresh ids never does. |
| ScanAdoption.ReusedGenerationLosesObject | pkg/listener/update-external-image-scan-status.go:141-142 | A run from an initial state: adopted, ensured, claimed by two cleaners, removed by the second, adopted again under the same id, published; the first cleaner then deletes the raw results of the selected generation. |
| ScanTheorems.LegacyClaimsAreValid | pkg/externalimage/legacy_cleanup.go:26-35 | In every reachable state each claimed legacy replacement passes validation. |
| ScanTheorems.RepairIsIdle | pkg/externalimage/cleanup.go:341-351 | In every reachable state a deletion claim changes only the rows that it deletes: the repair of selected rows has nothing to do. |
| ScanStore.UniqueArchitectures | pkg/externalimage/externalimage.go:372-386 | The non-empty names in order of first occurrence. |
| ScanStore.FirstOccurrencesMeaning | pkg/externalimage/externalimage.go:372-386 | Those are distinct and exactly the requested non-empty names. |
| ScanStore.ScanTables.ClaimGeneration | pkg/externalimage/externalimage.go:238-291 | Insert, guarded update, row count and rollback amount to the all-or-nothing claim; empty arguments are refused. |
| ScanStore.ScanTables.AdoptGeneration | pkg/externalimage/externalimage.go:297-333 | Guarded update, row count and rollback amount to the all-or-nothing adoption. |
| ScanStore.ScanTables.RequeueGeneration | pkg/externalimage/externalimage.go:338-370 | Exactly the requested rows running for that owner are requeued, and counted. |
| ScanStore.ScanTables.SetRunning | pkg/externalimage/externalimage.go:206-232 | Insert or update with the generation; an empty one is refused. |
| ScanStore.ScanTables.SetStatus | pkg/externalimage/externalimage.go:635-708 | The status report in each of its cases: stale, idempotent, recorded, inserted, refused. |
| ScanStore.ScanTables.DeleteLegacyBatch | pkg/externalimage/legacy_cleanup.go:122-149 | Only valid claims lose their legacy objects; a bulk deletion that fails part way completes nothing. |
| ScanStore.CollectReady | pkg/externalimage/legacy_cleanup.go:129-140 | The valid claims and exactly their legacy keys. |
| ScanStore.CountAll | pkg/externalimage/externalimage.go:282-284 | The row count equals the number of architectures iff every row was claimable. |
| ScanStore.ScanTables.EnsureCandidate | pkg/externalimage/publication.go:169-241 | Insert, checks and lease renewal amount to the ensure transaction; every refusal changes nothing. |
| ScanStore.ScanTables.MarkState | pkg/externalimage/publication.go:243-286 | The guarded update and the re-read return the new state, an adopted one, or an error. |
| ScanStore.ScanTables.SelectCandidate | pkg/externalimage/publication.go:341-453 | The statements amount to the selection transaction; Ok iff it was made or already stood. |
| ScanStore.ScanTables.UploadAndValidate | pkg/externalimage/publication.go:288-339 | Both uploads in order, the mark that their outcome calls for, and readiness exactly when the candidate may be selected. |
| ScanStore.ScanTables.PublishSuccessfulScan | pkg/externalimage/publication.go:455-467 | Alone, publication leaves the rows and objects of the machine's run of one publisher; success means current and selected. |
| ScanStore.PublicationRun | pkg/externalimage/publication.go:455-467 | What that run of seven steps amounts to in every case of refusal and failure. |
| ScanStore.PublicationSucceeds | pkg/externalimage/publication.go:455-467 | A current generation, new or left failed by an earlier attempt, is published when both uploads succeed. |
| ScanStore.ScanTables.ClaimDeletions | pkg/externalimage/cleanup.go:311-385 | Classifying the locked rows and three bulk updates amount to the claim; every row is claimed or protected. |
| ScanStore.ClaimComposed | pkg/externalimage/cleanup.go:341-381 | Repair, revocation and marking, in that order, do to each row what the claim says. |
| ScanStore.ScanTables.DeleteMetadata | pkg/externalimage/cleanup.go:407-458 | Exactly the rows still deleting under their lease and unreferenced go; the count is returned. |
| SemVer.ParseIff | pkg/buildpriority/priority.go:10 | A text parses to t iff t is well formed and renders to that text: the grammar is unambiguous and the parser complete. |
| SemVer.StandardExamples | pkg/buildpriority/priority.go:13-16 | Precedence orders the example chains of section 11 of Semantic Versioning 2.0.0 as that section does. |
| VersionKey.CoreSupportedIff | pkg/buildpriority/priority.go:25-34 | A core number has at most 20 significant digits iff it is below 10 to the 20th. |
| VersionKey.CoreOrder | pkg/buildpriority/priority.go:25-39 | Padded core numbers compare as numbers. |
| VersionKey.PieceOrder | pkg/buildpriority/priority.go:44-57 | An encoded identifier decides byte order as its identifier decides precedence, whatever follows. |
| VersionKey.FieldsOrder | pkg/buildpriority/priority.go:43-58 | Encoded identifier lists compare field by field, a longer list above its prefix. |
| VersionKey.SupportedIff | pkg/buildpriority/priority.go:20-58 | A version text is supported iff each core number is below 10 to the 20th and no numeric prerelease identifier has a leading zero. |
| VersionKey.DenotesText | pkg/buildpriority/priority.go:24-34 | The core numbers are major, minor and patch in this order, missing ones 0; the prerelease identifiers follow one by one, digits as numbers. |
| VersionKey.DenotesSpelled | pkg/buildpriority/priority.go:10 | How a, a.b and a.b.c are read, with or without v, prerelease identifiers after - and build metadata after +. |
| VersionKey.KeysOrderVersions | pkg/buildpriority/priority.go:13-16 | For supported versions with numeric identifiers shorter than 10^10, byte order of keys is precedence, and keys are equal iff the versions are equal up to build metadata. |
| VersionKey.LongIdentifierMisordered | pkg/buildpriority/priority.go:50-51 | A numeric identifier of 10^10 up to 2*10^10 digits sorts below every smaller one of 2*10^9 up to 10^10 digits. |
| VersionKey.OrderedIffTenBillion | pkg/buildpriority/priority.go:50-51 | Keys order all supported versions with numeric identifiers shorter than L iff L is at most 10^10. |
| VersionKey.CoreOf | pkg/buildpriority/priority.go:24-34 | The loop pads all three numbers or gives up on one that is too long. |
| VersionKey.AppendPre | pkg/buildpriority/priority.go:42-58 | The loop appends the encoded identifiers, or refuses a leading zero. |
| VersionKey.KeyFor | pkg/buildpriority/priority.go:20-62 | A key iff the text is supported; it holds major, minor and patch in this order, each in twenty digits, and ends in ~ iff there is no prerelease. |
| VersionKey.HighestKey | pkg/buildpriority/priority.go:17-67 | Over a list the result is the key of a version that no supported one exceeds; empty iff none is supported. |
| ApkIndex.WriteIndex | pkg/apk/index.go:116-169 | The text of the kept entries in order. |
| ApkIndex.ParseIndex | pkg/apk/index.go:92-113 | The entries read block by block and line by line. |
| ApkIndex.RoundTrip | pkg/apk/index.go:91-169 | Reading a written index gives exactly the kept entries, in order, trimmed, with defaults filled and releases merged, for entries without newlines. |
| ApkIndex.WriteTwice | pkg/apk/index.go:115-169 | Writing what was read gives the same text, for tidy entries. |
| ApkIndex.NormalisedOnceIff | pkg/apk/index.go:119-165 | One pass settles a kept entry iff none of the fields whose presence matters is blank. |
| ApkIndex.ReadIndexClean | pkg/apk/index.go:98-106 | Every value read from any text is trimmed and on one line. |
| ApkIndex.RewriteSettles | pkg/apk/index.go:91-169 | Reading any text and writing it gives a text that reading and writing keeps. |
| ApkRevisions.LastLineDecides | pkg/apk/index.go:94-107 | A field is read iff some line gives it, and the last such line decides. |
| ApkRevisions.EntrySpelled | pkg/apk/index.go:119-167 | The lines of a written entry in full, in order. |
| ApkRevisions.RewriteReads | pkg/apk/index.go:91-169 | Reading a rewritten index gives its identified entries in order, each field under its own letter, with release, defaults and epoch. |
| ApkEdits.ParsePKGINFO | pkg/apk/metadata.go:235-272 | The loop, the version split and the required fields. |
| ApkRevisions.AcceptedIff | pkg/apk/metadata.go:256-271 | A metadata file is accepted iff it gives a name, an architecture, a version and, if that has a release marker, something before and after it. |
| ApkRevisions.AcceptedFields | pkg/apk/metadata.go:256-264 | Version and release are the parts around the first marker, or release 0; every other field is as given. |
| ApkEdits.InfoCollects | pkg/apk/metadata.go:238-254 | A key is present iff it is given, with all its values in order, joined by spaces. |
| ApkEdits.PackageVersion | pkg/apk/metadata.go:256-264 | Parsed version and release together are the version as given, or that version at release 0, and the version holds no release marker. |
| ApkEdits.ParsedIsPublishable | pkg/apk/metadata.go:235-272 | Parsed metadata of any text meets what adding and withdrawing rely on, when name and version are given once. |
| ApkEdits.ToIndexMeta | pkg/apk/apk.go:59-107 | The field-by-field copy to index letters. |
| ApkEdits.AddAPKToIndex | pkg/apk/apk.go:109-167 | The text after adding; a listed revision leaves it alone. |
| ApkRevisions.AddPublishes | pkg/apk/apk.go:57-167 | After adding, an entry has that name, version and release; the text stays if one had them, and otherwise the identified entries stay in order and exactly one is added, with the package's fields. |
| ApkRevisions.AddKeeps | pkg/apk/apk.go:119-149 | Every revision that was listed with an identity is still listed. |
| ApkEdits.AddTwice | pkg/apk/apk.go:57-167 | Through write and re-parse, adding a revision twice is adding it once, for any previous text. |
| ApkEdits.FilenameBackIff | pkg/apk/util.go:33-52 | A package file name gives name, version and release back iff version and release hold no dash. |
| ApkEdits.RemoveAPKFromIndex | pkg/apk/apk.go:18-55 | The index without its first entry of that name and version. |
| ApkRevisions.RemovesFirst | pkg/apk/apk.go:30-38 | Exactly the first entry with that name and joined version goes, if there is one. |
| ApkEdits.WithdrawAdded | pkg/apk/apk.go:18-167 | Withdrawing a newly added revision by its file name restores the previous index, in order and normalised. |
| BuildQueue.StartsOnlyReady | pkg/buildqueue/buildqueue.go:45-53 | In any run in which no pass starts a link that another pass holds too, the link a pass starts next has no execution and each existing dependency's latest execution is a success, whatever the executions did since the query. |
| BuildQueue.ReadyKeptIff | pkg/buildqueue/buildqueue.go:92-165 | A step keeps every waiting link ready iff it does not start a link that another pass holds too. |
| BuildQueue.OneAtATimeShares | pkg/buildqueue/buildqueue.go:189-196 | Passes one at a time never share a link. |
| BuildQueue.StartsAfterDependencies | pkg/buildqueue/buildqueue.go:45-53 | In every run, however passes overlap, a link starts only after each of its dependencies has succeeded. |
| BuildQueue.SharedRowStartsTwice | pkg/buildqueue/buildqueue.go:189-196 | Two overlapping passes build a shared row twice, and a dependent starts while the latest execution of its dependency is no success. |
| BuildQueue.SomeLinkReady | pkg/buildqueue/buildqueue.go:37-54 | With acyclic dependencies and only successes so far, some link without an execution is ready. |
| BuildQueue.RankFollowsKeys | pkg/buildpriority/priority.go:69-72 | Within a family the dense rank is lower iff the key is higher, and equal iff keys are equal. |
| BuildQueue.NewerVersionFirst | pkg/buildqueue/buildqueue.go:61-65 | Of two ready links of a family with known versions, the one of higher precedence starts first. |
| BuildQueue.RanksFirstIff | pkg/buildpriority/priority.go:69-72 | Rank zero: the links of unknown family or version, and those with no higher key ready in their family. |
| BuildQueue.OlderFirst | pkg/buildqueue/buildqueue.go:65 | Of two ready links of equal rank the older starts first, of equally old ones the one with the lower id. |
| BuildQueue.UnknownNotDelayed | pkg/buildpriority/priority.go:69-72 | A link of unknown version is never held up by a younger link. |
| BuildQueue.OrderExists | pkg/buildqueue/buildqueue.go:65 | Every set of ready links has an order by rank, creation time and id. |
| BuildQueue.StartLinks | pkg/buildqueue/buildqueue.go:92-165 | The loop over the rows of one query is the run of its start steps. |
| HostKey.IdentityStore.VerifyCMXHostKey | pkg/builder/hostkey.go:84-134 | The transaction's outcome and new row in every case. |
| HostKey.IdentityStore.Migrate | pkg/builder/migrate.go:53-66 | Startup marks and enrolls exactly the unmarked machines and keeps existing pins. |
| HostKey.MigrationMeaning | pkg/builder/migrate.go:53-66 | What a startup does to the rows of each machine. |
| HostKey.AcceptsIff | pkg/builder/hostkey.go:84-161 | A handshake is accepted iff it presents a plain key and the VM, in the pool and not quarantined, has this key pinned or waits for its first. |
| HostKey.AcceptedAgain | pkg/builder/hostkey.go:109-161 | An accepted key is accepted again through any steps that leave the VM in the pool and present no other key for it. |
| HostKey.FirstKeyAccepted | pkg/builder/hostkey.go:120-134 | A newly provisioned VM accepts the first plain key. |
| HostKey.RefusalQuarantines | pkg/builder/hostkey.go:109-119 | A handshake of an enrolled VM that is not accepted quarantines it; one of any other VM changes nothing. |
| HostKey.AcceptPins | pkg/builder/hostkey.go:120-134 | An accepted handshake presented a plain key, which is pinned afterwards. |
| HostKey.AcceptedKeysAgree | pkg/builder/hostkey.go:84-161 | Any two accepted handshakes of a VM presented the same key, whatever happened in between. |
| HostKey.QuarantineIsFinal | pkg/builder/hostkey.go:109-119 | After a refusal other than a missing enrollment no handshake of the VM is accepted again. |
| ReleaseCache.Releases.Enter | pkg/anchoretool/release.go:102-118 | The first locked section: cached, joined or started. |
| ReleaseCache.Releases.Complete | pkg/anchoretool/release.go:122-129 | The second locked section: the load is dropped and only a success is cached. |
| ReleaseCache.RunInv | pkg/anchoretool/release.go:101-130 | Every interleaving keeps the invariant of cache, loads and callers. |
| ReleaseCache.SingleFlight | pkg/anchoretool/release.go:101-130 | At most one loader runs for a key, and a key is never both cached and loading. |
| ReleaseCache.ReturnsItsLoad | pkg/anchoretool/release.go:109-130 | A caller returns the result of the load it ran or joined, which was started for its own key, or its own context's error, or the release cached for its key. |
| ReleaseCache.ErrorsAreOwn | pkg/anchoretool/release.go:109-116 | A caller returns what a load for its key returned, unless its own context was cancelled in the run, and then that error. |
| ReleaseCache.CachedIffLoaded | pkg/anchoretool/release.go:122-129 | A key is cached with a release iff a load started for that key returned it: no failure and no other key's release is ever cached under it. |
| ReleaseCache.CachedForever | pkg/anchoretool/release.go:103-106 | A cached release stays unchanged and its key is never loaded again. |

## Left out

- The order of the returned node and edge lists of the build graph: it follows Go's map iteration; the contracts fix the sets and the absence of duplicates.
- Go's sort functions are modelled by insertion sort on sequences; only the sorted result matters. The maps onStack and visited are modelled as sets of their true keys.
- Strings are sequences of Unicode code points. Byte order, splitting and trimming agree with Go's on valid UTF-8.
- SQL, Postgres, pools, timeouts and context cancellation inside transactions: a committed transaction is one atomic step, and rows that locks hide are rows that a step does not see. Listing expired candidates is part of choosing those rows.
- gzip, SHA-256, JSON validity, tar, HTTP, S3 and SSH are parameters of the model. Equal payloads are taken to compress to equal bytes.
- Objects left behind by an upload that lands after cleanup: the steps are there, no claim is made about them.
- ScanProtocol: an upload given up on may land for any publisher past its ensure step, and repeatedly; this only adds runs.
- ScanStore: initialising a queued row, claiming legacy cleanup and scheduling it are single SQL statements, modelled as functions on rows in ScanDb only. Messages, attempt times and SBOM freshness times of the rows are not part of this model.
- The drain loop, its budget, statistics and metrics, and the batch limits of both cleanup workers.
- BuildQueue: a pass is one query and the starts of its rows. An execution that succeeded is taken to stay so (retries are refused after a success); creation of releases and build payloads is one outcome of starting a link. The family and stored key of a link are inputs; the SQL that fetches them is left out.
- HostKey: the ten-second verification timeout, static hosts and the pool's readiness conditions. Keys are their wire form; rendering and parsing them are parameters with `decode(encode(k)) == k`.
- ReleaseCache: a loader that panics. A loader that never returns is covered.
- Signing, verification of releases, packages and images (pkg/cosign, pkg/apk/sign.go, pkg/anchore), remote builders (pkg/builder/pool.go, ssh.go), proxies, web code and the batch backfills: plumbing, templates and plain accessors.
