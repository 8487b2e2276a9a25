# Verified model of the retoc package converters

retoc converts Unreal Engine assets between their legacy form (a package header and
an exports file) and the zen form kept in IoStore containers, and back. This project
models the parts of retoc that move, renumber or repack data, and proves that nothing
is lost, mixed up or put out of order on the way. Loops and mutable builders of the
program are methods and classes here, proved against specifications that say what
their results mean; expressions are functions; the concurrent parts are step systems
with invariants over all runs.

`dafny verify dfyconfig.toml` checks everything. The modules, one per file:

- **Load order and bundles.** `LoadOrder` is the priority-queue topological sort.
  `PreloadGraph` reads and writes preload lists and builds the graph from them.
  `Bundles` cuts a load order into export bundles and links them with arcs.
  `ExportData` moves export bytes into bundle order and back. `BundleLinks` turns
  bundles back into preload lists and shows that re-sorting returns the same order.
  `ArcSection` writes and reads the arcs between UE4.27 packages, `ArcFixup` patches
  their placeholders, `PatchedSection` says what a reader finds then, and `PackageFixup`
  runs building, writing and patching together.
  `DependencyBundles` is the UE5.3 form of dependencies.
- **Import rehydration.** `Names` is the numeric-suffix codec and the name table.
  `ImportTable` hash-conses resolved imports, `FinalizeImports` moves them to their
  original positions, `AssetBuild` runs the whole conversion and decides when it
  succeeds, `FullNames` walks outer chains.
- **Shader libraries.** `ShaderGroups` groups by references, `ShaderSplit` splits large
  groups, `ShaderLimit` says when the parts stay within the size limit, `ShaderArchive`
  packs and extracts groups, `ShaderPacking` runs grouping and packing together,
  `ShaderLayout` lays code out in one file with its preload entries. `Sorting` is a
  stable sort.
- **Container structures.** `DirectoryIndex`, `ChunkStore`, `StoreEntries`, `NameBatch`.
- **Concurrent protocols.** `FilePool` and `PackageLookup`.
- **Shared.** `Zen` (package indices, commands, results), `Sequences`, `Bytes`,
  `Arithmetic`.

The results to start from: `SortDependenciesInLoadOrder` with
`LoadOrderIsLexicographicallyLeast`; `BuildPreloadDependencies` with `ArcsAreSufficient`;
`WriteAndRebuild` with `IdentityIffContiguous`; `ConvertAndSort`; `ConvertAndFixup`;
`BuildAsset` with `PathIsKept`; `BuildShaderGroups` with `EqualSizesWithinLimit`;
`GroupPackAndRead`; `PreloadCoversExactly`; `IterRoot`; `ChunkWriter.Read`;
`WriteAndRead`; `NameBatch.RoundTrip`; `FilePool.RunsAreSafe`; `ResultsAgree`.

Where the code does not do what its comments say or what one would expect of it, the
model follows the code:

- The comment at `src/shader_library.rs:943` says that no split group exceeds the maximum
  size. Under every limit some groups exceed it (`LimitMayBeExceeded`). Let k be the
  number of parts, the smaller of size / limit + 1 and the number of shaders. When every
  shader gets a part of its own, the limit is kept if and only if no shader exceeds it
  (`SinglesWithinLimit`). Otherwise size + (k - 1) * largest <= k * limit is enough
  (`AverageWithinLimit`), that no shader exceeds the limit is needed
  (`WithinLimitNeedsSmallShaders`), and for shaders of equal size the fullest part decides
  (`EqualSizesWithinLimit`). In any case a part less its smallest shader stays below the
  limit (`SplitGroupBounded`).
- Finalizing imports gives every import a place only if there is room for those without a
  predefined position, and `src/asset_conversion.rs:1056` unwraps the place of every
  import that is referred to. A package that names an import twice may leave no room
  (`RepeatedImportHasNoRoom`). `BuildAsset` succeeds if and only if the package is
  convertible and has room: the entries its imports need plus the listed positions are at
  most the larger of those entries and the length of the import map, plus the number of
  different imports listed.
- Converting export data back and forth is the identity exactly for files whose exports
  are contiguous and in export order (`IdentityIffContiguous`, `ChangedFile`).
- A package without bundles is not rebuilt, so its exports file comes back without the
  package tag that was stripped when it was written (`WriteAndRebuild`).
- Shaders of size zero can leave a part of a split group empty, and the program then stops
  at the first index of an empty group (`src/shader_library.rs:1010`). `SplitGroupBounded`
  says exactly when no part is empty.
- A name suffix of 2147483647 overflows the stored number. With the wrapping arithmetic
  of release builds every name is still restored (`NameRoundTrip`).

## Model

| member | source | states |
|---|---|---|
| LoadOrder.CompareIsPriority | src/zen_asset_conversion.rs:598-605 | the heap comparison ranks a node above another exactly when it comes first by (public first, Create before Serialize, smaller export index); that ranking is a strict total order and two nodes compare equal only when they are the same node |
| LoadOrder.CountIncomingEdges | src/zen_asset_conversion.rs:609-616 | every counter equals the number of edges into its node, duplicates included, in whatever order the map is walked |
| LoadOrder.InitialHeap | src/zen_asset_conversion.rs:618-624 | the heap starts with each unconstrained node once and nothing else |
| LoadOrder.ReleaseDependants | src/zen_asset_conversion.rs:633-646 | after a pop the counters again count exactly the edges from nodes not yet popped, no counter goes below zero, and the heap again holds each waiting node with counter zero once |
| LoadOrder.RemoveEdges | src/zen_asset_conversion.rs:635-645 | removing one edge per listed dependant keeps counters and heap in balance with the edges that remain |
| LoadOrder.HeapHoldsReady | src/zen_asset_conversion.rs:618-647 | at every pop the heap holds exactly the nodes whose dependencies have all been placed |
| LoadOrder.SortDependenciesInLoadOrder | src/zen_asset_conversion.rs:607-654 | for every well-formed graph: Ok if and only if the graph is acyclic, and then the result places the least ready node at every position |
| LoadOrder.NoReadyNodeLeft | src/zen_asset_conversion.rs:649-652 | when no ready node is left, the length test at the end tells an acyclic graph from one with a cycle |
| LoadOrder.StuckImpliesCycle | src/zen_asset_conversion.rs:649-652 | a nonempty set of nodes that all wait for each other contains a cycle |
| LoadOrder.TopologicalImpliesAcyclic | src/zen_asset_conversion.rs:607-654 | a graph that has an order respecting all edges has no cycle |
| LoadOrder.LoadOrderIsTopological | src/zen_asset_conversion.rs:626-653 | the load order is a permutation of the nodes and every edge leads from an earlier to a later position |
| LoadOrder.LoadOrderIsLexicographicallyLeast | src/zen_asset_conversion.rs:598-653 | compared with any other topological order, the load order has the smaller node where the two first differ |
| LoadOrder.LoadOrderUnique | src/zen_asset_conversion.rs:607-654 | there is one load order only, so neither heap nor map iteration order shows in it |
| LoadOrder.SortOutcomeUnique | src/zen_asset_conversion.rs:607-654 | graphs with the same nodes and edges sort to the same outcome, whatever the order and multiplicity of their edge lists |
| PreloadGraph.ListedIsStable | src/asset_conversion.rs:893-904 | appending to the flat preload list does not change what earlier exports list |
| PreloadGraph.WrittenIsListed | src/asset_conversion.rs:893-904 | four runs written behind the list, with their lengths in the export entry, read back as the four kinds they were |
| PreloadGraph.LegacyPackage.ApplyStandaloneDependencies | src/asset_conversion.rs:868-906 | the list only grows; in it stand, kind by kind, the given dependencies of every export, followed by its outer, super, class and template where these are neither null nor there already (the super counts as there when it is created before creating); its references are untouched |
| PreloadGraph.ReadExport | src/zen_asset_conversion.rs:663-721 | the two node lists read through the index arithmetic are the dependencies the export entry stands for, own Create first |
| PreloadGraph.ListedWaits | src/zen_asset_conversion.rs:663-721 | what is read for a command of an export is exactly what stands in the run of its kind in the flat list, and the own Create for a Serialize |
| PreloadGraph.BuildExportDependencies | src/zen_asset_conversion.rs:656-732 | the map lists both commands of every export and nothing else, each with exactly the entries of the flat list that its export table entry gives it; nodes are listed in export order, Create first |
| PreloadGraph.BuildDependants | src/zen_asset_conversion.rs:734-750 | the reversed lists form a well-formed graph whose edges are exactly the export-to-export dependencies |
| PreloadGraph.RepresentsIsWellFormed | src/zen_asset_conversion.rs:734-750 | a graph with exactly those edges joins listed, distinct nodes only, which is what the sort relies on |
| PreloadGraph.SortExports | src/zen_asset_conversion.rs:656-753 | from preload list to load order: Ok if and only if the dependencies between exports have no cycle, and then the canonical order |
| Bundles.TilesPartition | src/zen_asset_conversion.rs:345-376 | every entry lies in exactly one bundle |
| Bundles.BundledIsUnique | src/zen_asset_conversion.rs:330-395 | given entries, public flags and sizes there is one way to cut bundles: nonempty, closed by their only public entry, starting at the summed size of earlier Serialize entries |
| Bundles.ZenPackageBuilder.AppendEntry | src/zen_asset_conversion.rs:337-394 | one more entry keeps the cut correct, keeps offset and open bundle in step, and records the bundle of the new command and of no other |
| Bundles.ZenPackageBuilder.BuildBundles | src/zen_asset_conversion.rs:330-395 | the entries are the export commands of the load order; the bundles are the unique correct cut; lookup and public mapping name the bundle of every command |
| Bundles.ZenPackageBuilder.CreateDependencyArc | src/zen_asset_conversion.rs:403-480 | after each dependency the arcs are exactly those the dependencies so far call for, without duplicates; a dependency on an object of another package, Create or Serialize, now has its arc, its arc from -1, or its placeholder and placeholder arc |
| Bundles.ZenPackageBuilder.AddExternalArc | src/zen_asset_conversion.rs:424-478 | a dependency on another package changes the arcs of that package only, in the form its container version uses |
| Bundles.ZenPackageBuilder.BuildArcs | src/zen_asset_conversion.rs:482-507 | all dependencies of all exports are visited once; every dependency on another package is served by an arc of its form, and every arc joins or serves such a dependency |
| Bundles.ZenPackageBuilder.BundleSortedExports | src/zen_asset_conversion.rs:330-508 | from any load order the builder ends up with the unique bundles and the complete, duplicate-free arcs, every one of them called for |
| Bundles.BuildPreloadDependencies | src/zen_asset_conversion.rs:656-762 | sorting, bundling and linking together: if the dependencies are acyclic everything is built, and for every dependency on import i of another package the arc with i and its command (UE5), the arc from -1 (before UE5) or the placeholder with package, object and command leads to the bundle of the waiting command, and there are no other arcs; nothing is touched otherwise |
| Bundles.BuiltServes | src/zen_asset_conversion.rs:425-475 | for every command that waits for a command of an imported package export, whichever the two commands are, the dependency on that package holds the arc or placeholder of its container version |
| Bundles.BuiltNotSuperfluous | src/zen_asset_conversion.rs:425-475 | every external arc, arc from -1, placeholder and placeholder arc comes from such a wait, and only the kind of its container version occurs |
| Bundles.BuiltJoins | src/zen_asset_conversion.rs:405-421 | two bundles have an internal arc if and only if they are different and a command in the second waits for one in the first |
| Bundles.EverythingLocated | src/zen_asset_conversion.rs:493-499 | both commands of every export are found in the bundle lookup, so no lookup fails |
| Bundles.DependencyComesFirst | src/zen_asset_conversion.rs:330-395 | the entry of a dependency stands before the entry that depends on it |
| Bundles.ArcsGoForward | src/zen_asset_conversion.rs:405-421 | every internal arc leads from a bundle to a later one |
| Bundles.ArcsAreSufficient | src/zen_asset_conversion.rs:405-421 | running bundles at any times that respect the internal arcs completes every export dependency before it is needed, although arcs inside bundles are left out |
| Bundles.SequentialRunRespectsArcs | src/zen_asset_conversion.rs:416-419 | bundle N after bundle N-1, as UE4.27 loads them, respects all arcs |
| ExportData.WriteBundle | src/zen_asset_conversion.rs:780-800 | the bytes written up to an entry are the data of the Serialize entries before it, and the furthest export end is tracked exactly |
| ExportData.FindExtraData | src/zen_asset_conversion.rs:803-817 | exactly the bytes behind the last export: without the closing package tag where there is one, and all of them otherwise |
| ExportData.LargestEndIsEnd | src/zen_asset_conversion.rs:787-800 | the tracked end is that of some serialized export, and no serialized export ends behind it |
| ExportData.ExtraDataIsRest | src/zen_asset_conversion.rs:803-817 | the extra data and, if it is there, the tag are everything behind the given end |
| ExportData.WriteExportsInBundleOrder | src/zen_asset_conversion.rs:764-819 | succeeds if and only if every bundle offset is the summed size of earlier Serialize entries; then the output is the export data in entry order, followed by all bytes behind the last export except a closing tag |
| ExportData.AssignSerialOffsets | src/asset_conversion.rs:605-619 | each export is assigned the summed size of the exports before it |
| ExportData.MoveEntry | src/asset_conversion.rs:1121-1139 | moving one export puts it at its assigned place and disturbs none moved before |
| ExportData.RebuildExportData | src/asset_conversion.rs:1094-1159 | wherever the headers say that the bundles start, or leave it implied: fails exactly when a bundle ends behind the raw data; otherwise every export ends up at its place in export order, followed by what stands behind the furthest bundle end and by the package tag |
| ExportData.LocatedSource | src/asset_conversion.rs:1112-1118 | when every bundle starts where the one before it ends, explicitly or implied, the data of an entry stands behind that of all entries before it |
| ExportData.SerialSizeIsTotal | src/asset_conversion.rs:1096-1102 | entries that serialize each export once take as much room as the exports in export order |
| ExportData.RebuiltHoldsExport | src/asset_conversion.rs:1094-1159 | the rebuilt file holds the original bytes of each export |
| ExportData.RoundTrip | src/asset_conversion.rs:1094-1159 | writing in bundle order and rebuilding yields, for every legal file, the original exports in export order, the extra data and the tag |
| ExportData.IdentityIffContiguous | src/asset_conversion.rs:1094-1159 | the two conversions give every file of a given length back unchanged if and only if its exports follow each other in export order from the start |
| ExportData.ChangedFile | src/asset_conversion.rs:1094-1159 | for every layout that is not contiguous, a file that comes back changed |
| ExportData.LoadOrderSerializesOnce | src/zen_asset_conversion.rs:330-395 | the entries of a load order serialize every export exactly once, as the round trip asks |
| ExportData.WriteAndRebuild | src/zen_asset_conversion.rs:764-819 | both conversions together on a built package: neither fails, and the outcome is the exports in export order with the extra data and the tag; a package without bundles only keeps the extra data, and its tag is not added again |
| ExportData.ExportsFile | src/asset_conversion.rs:1170-1176 | a package with bundles is rebuilt, and of one without them only the header is stripped |
| BundleLinks.AddExportDependency | src/asset_conversion.rs:688-718 | a dependency is filed under its kind for its export, and refused exactly when an export would wait for itself other than Create before Serialize |
| BundleLinks.LinkBundles | src/asset_conversion.rs:720-742 | every entry of a bundle depends on the one before it; fails exactly when such a link is refused |
| BundleLinks.CompleteArcs | src/asset_conversion.rs:744-758 | the arcs are the given ones, as a UE5 package has them, and before UE5 also one from each bundle to the next |
| BundleLinks.ResolveExportDependencies | src/asset_conversion.rs:686-866 | for every container version: export e lists p in a kind exactly when p comes directly before e inside a bundle, an internal arc joins the bundle whose last entry is p to the bundle whose first entry is e, or an outer arc leads from p to the bundle of e; fails exactly when an export would wait for itself other than Create before Serialize |
| BundleLinks.LinkIff | src/asset_conversion.rs:720-802 | the links are exactly neighbouring entries of a bundle, last and first entries of bundles joined by an arc (given, or from the bundle before in old packages), and outer arcs with the first entry of their bundle |
| BundleLinks.AllowedIff | src/asset_conversion.rs:688-698 | no link is refused if and only if nothing has to come before itself other than Create before Serialize |
| BundleLinks.CollectedWaits | src/asset_conversion.rs:686-802 | what the exports collect from the links is what has to come before their commands, kind by kind, except themselves |
| BundleLinks.LegacyLinksAre | src/asset_conversion.rs:720-778 | before UE5 the links between exports are exactly the pairs of neighbouring entries of the whole package |
| BundleLinks.ResolvedLinksSuccessors | src/asset_conversion.rs:686-778 | each export lists exactly what directly precedes its commands |
| BundleLinks.ForwardIffLoadsInOrder | src/asset_conversion.rs:868-886 | after outer, super, class and template were added, all dependencies point backwards in the entries if and only if the bundles load these references first |
| BundleLinks.ChainDeterminesOrder | src/zen_asset_conversion.rs:607-654 | a graph with an edge between all neighbours of a permutation has no other topological order |
| BundleLinks.LoadOrderRoundTrip | src/zen_asset_conversion.rs:607-654 | re-sorting a converted package succeeds if and only if its bundles load every reference in order, and then returns exactly the original entries |
| BundleLinks.BundlesRoundTrip | src/zen_asset_conversion.rs:330-395 | bundling the re-sorted package reproduces the original bundle headers |
| BundleLinks.RejectedDoesNotLoad | src/asset_conversion.rs:692-698 | a layout whose links are refused does not load in order, so refusing it loses nothing |
| BundleLinks.ConvertAndSort | src/asset_conversion.rs:908-928 | UE4.27 package to legacy form to load order as one step: Ok if and only if the bundles load in order, and then the original entry sequence |
| ArcSection.SerializeLegacyArcs | src/zen.rs:1122-1146 | behind what was written before stands the number of packages that have arcs and, for each of them in order, its id, the number of its arcs and the arcs, and nothing else; the recorded offsets are exactly the places of the arcs in this list, in order |
| ArcSection.WriteArcs | src/zen.rs:1136-1144 | the arcs of one package stand one behind the other, and the recorded offsets are their places |
| ArcSection.ReadLegacyArcs | src/zen.rs:897-909 | reading accepts exactly the sections that list dependencies and returns what they list, so a written section reads back as it was written |
| ArcSection.DependenciesUnique | src/zen.rs:897-909 | the same bytes list one sequence of dependencies of a given length only |
| ArcFixup.ConvertedZenAssetBundle.FixupLegacyExternalArcs | src/zen_asset_conversion.rs:886-935 | succeeds exactly when every placeholder is recorded and its package, if converted along, maps the command; then each patched field is -1 exactly for a package that is not converted along and the bundle of the first mapping of that export and command otherwise, and no other byte changes in any case |
| ArcFixup.PlaceholdersBijectWithArcs | src/zen_asset_conversion.rs:452-475 | placeholder numbers in the serialized arcs are distinct and are exactly the recorded placeholders |
| ArcFixup.FixedArcsServeDependencies | src/zen_asset_conversion.rs:886-935 | after the fix-up each dependency on another package has an arc to the waiting bundle from the bundle which that package maps the command to, or from -1 when it is not converted along, and every arc serves such a dependency |
| ArcFixup.MappingFindsBundle | src/zen_asset_conversion.rs:378-389 | the mapping of a package names for every command of a public export the bundle that holds it |
| ArcFixup.MappedBundleRuns | src/zen_asset_conversion.rs:378-389 | a mapping of a built package only names bundles that hold the command of an export with that id |
| PatchedSection.SectionReread | src/zen_asset_conversion.rs:886-935 | after the fix-up the section lists the packages it listed before, each with as many arcs, and the arcs are those in the buffer now |
| PatchedSection.OffsetOf | src/zen.rs:1122-1146 | every arc of every listed package has its offset among the recorded ones |
| PatchedSection.PatchedServes | src/zen_asset_conversion.rs:886-935 | the patched arc in the place of an arc that was written for a dependency serves that dependency |
| PackageFixup.VisitCount | src/zen_asset_conversion.rs:656-721 | the preload list says how many dependencies are visited: its entries, and one for the Create of every export |
| PackageFixup.VisitBound | src/zen_asset_conversion.rs:482-507 | every dependency is visited for a bundle that exists, so bundle numbers stay below the number of entries |
| PackageFixup.ArcsResolveIff | src/zen_asset_conversion.rs:886-925 | all serialized arcs resolve if and only if every package that is converted along knows the exports that are depended on |
| PackageFixup.ConvertPackage | src/zen_asset_conversion.rs:820-863 | building and serializing together: unless the dependencies are circular the package carries a placeholder and its arc for every dependency on another package, its section lists the arcs and the offsets are their places, and its mapping describes its bundles |
| PackageFixup.FixupPackage | src/zen_asset_conversion.rs:886-935 | the fix-up of such a package succeeds if and only if all providers know their exports; then every placeholder is replaced by what it stands for, every dependency on another package is served by an arc and every arc serves one |
| PackageFixup.ConvertAndFixup | src/main.rs:1091-1127 | the whole way from preload list to patched arcs: the load order is cut into its bundles; it succeeds exactly for acyclic dependencies whose providers map every command that is waited for; then reading the section of the patched package yields for every wait for an object of package q an arc listed for q, from the bundle q maps that command to, or from -1 when q is not converted along, to the waiting bundle, and every arc listed for a package serves such a wait |
| PackageFixup.ServedExactly | src/zen_asset_conversion.rs:886-935 | what a reader finds in a written and then patched section serves exactly the waits of the dependency map for objects of other packages |
| PackageFixup.ProvidersKnowIff | src/zen_asset_conversion.rs:900-925 | the visited providers are known exactly when every package that is converted along maps the commands waited for |
| DependencyBundles.KeepMembers | src/zen_asset_conversion.rs:538-552 | a dependency is stored exactly when it is another export or an import of a package export |
| DependencyBundles.KeepIdempotent | src/zen_asset_conversion.rs:538-552 | what was stored once is stored again |
| DependencyBundles.KeepsOrder | src/zen_asset_conversion.rs:538-552 | storing keeps the order, and a list of which nothing is left out as it is |
| DependencyBundles.CollectDependencies | src/zen_asset_conversion.rs:531-556 | the stored dependencies of one command, in order |
| DependencyBundles.CollectedByKind | src/zen_asset_conversion.rs:564-567 | the four collected lists are the four kinds of the export, and the implied Create before Serialize drops out |
| DependencyBundles.BuildDependencyBundles | src/zen_asset_conversion.rs:558-585 | headers and entries are the unique layout of the stored dependencies: from the first entry of each header on stand those to create before creating, serialize before creating, create before serializing and serialize before serializing, each as long as its count and in order, and the headers follow each other |
| DependencyBundles.LaidOutRuns | src/asset_conversion.rs:633-670 | in such a layout the entries of each header are its four runs in that order, each as long as its count |
| DependencyBundles.ResolveDependencyBundles | src/asset_conversion.rs:631-671 | whatever headers in range a package has, every export gets the four runs its header counts off, each as its kind |
| DependencyBundles.RoundTrip | src/asset_conversion.rs:631-671 | stored dependencies survive the way to bundles and back, and storing the result again reproduces headers and entries |
| Names.SuffixNumberOfDecimal | src/main.rs:1683-1687 | a suffix in canonical decimal notation below 2^31 is recognized as that number |
| Names.NumberIsSplitOff | src/main.rs:1676-1692 | when a number is split off, base, underscore and canonical decimal spell the name |
| Names.BreakDownNumbered | src/main.rs:1676-1692 | every name with a canonical number suffix breaks down to its base and number plus one, up to and including suffix 2147483647, where the addition wraps |
| Names.NameRoundTrip | src/legacy_asset.rs:517-524 | putting base and number together restores every name; a number is split off if and only if the name ends in a canonical number |
| Names.PairRoundTrip | src/legacy_asset.rs:517-524 | a stored pair is what its text breaks down to if and only if it has no number and its base does not end in one, or its number stands for a suffix that is not negative |
| Names.NameMap.FromNames | src/legacy_asset.rs:469-475 | the table keeps the list; of equal names the last is found |
| Names.NameMap.StoreBase | src/legacy_asset.rs:528-537 | finds or appends a base name; earlier entries keep their index |
| Names.NameMap.Store | src/legacy_asset.rs:525-538 | the returned name reads back as the stored text, earlier names keep theirs, and at most one entry is added |
| ImportTable.DenotesUnique | src/asset_conversion.rs:475-498 | an import map entry, followed through its outers, stands for one import only |
| ImportTable.TableDenotes | src/asset_conversion.rs:475-498 | in a table built by the converter every entry denotes the import it was added for; the outer chain ends |
| ImportTable.LegacyAssetBuilder.PushImport | src/asset_conversion.rs:488-495 | an appended entry means the given import inside its outer, and all earlier entries keep their meaning |
| ImportTable.LegacyAssetBuilder.FindOrAddResolvedImport | src/asset_conversion.rs:475-498 | hash-consing: the index denotes exactly the requested import, the same import always gets the same index, exactly the import and its outers become known, each missing one takes one new entry, and outers stand before what they contain |
| ImportTable.ResolveLocalPackageObject | src/asset_conversion.rs:449-474 | null, exports and imports resolve to what they mean; fails exactly for an import that neither resolves nor was replaced before |
| ImportTable.AddUnknownImport | src/asset_conversion.rs:523-533 | a placeholder stands for an unknown object in an unknown package, at a fresh index |
| ImportTable.AddPlaceholder | src/asset_conversion.rs:512-533 | an unresolvable import gets a placeholder of its own, shared with no other import |
| ImportTable.BuildImportMap | src/asset_conversion.rs:501-543 | fails exactly when the map lists an export; otherwise every listed position is recorded with the entry of its import, and exactly the listed imports are known |
| ImportTable.SharedEntry | src/asset_conversion.rs:449-474 | two imports share an entry if and only if they are the same or resolve to the same import |
| ImportTable.OrderInjectiveIff | src/asset_conversion.rs:541 | the recorded order is injective if and only if the import map names no import twice |
| ImportTable.BuildExport | src/asset_conversion.rs:553-560 | the references and the name of an export mean what the zen export says; fails exactly when a reference can neither be resolved nor was replaced |
| ImportTable.BuildExportMap | src/asset_conversion.rs:544-603 | all exports mean what the zen package says; fails exactly when some export has such a reference |
| FinalizeImports.PlaceImports | src/asset_conversion.rs:1010-1051 | position by position: predefined imports stand where they belong, free imports keep their order and stand once, fillers only appear when the free imports are used up |
| FinalizeImports.TotalIffRoom | src/asset_conversion.rs:1010-1051 | every current import finds a place if and only if the free positions suffice for the free imports |
| FinalizeImports.InjectiveOrderUndone | src/asset_conversion.rs:1014-1050 | with an injective order nothing is lost and remapping undoes the order |
| FinalizeImports.RemapEach | src/asset_conversion.rs:1062-1076 | each element is remapped; aborts exactly when one has no place |
| FinalizeImports.RemapKeepsMeaning | src/asset_conversion.rs:1053-1060 | a remapped reference stands for what the original stood for |
| FinalizeImports.FinalTable | src/asset_conversion.rs:1051-1070 | every entry of the final import map denotes the import it was copied from, outer chain included |
| FinalizeImports.FinalizeAsset | src/asset_conversion.rs:1007-1078 | aborts exactly when some reference has no place; otherwise the final tables mean what the temporary ones meant |
| FinalizeImports.TranslateDependencies | src/asset_conversion.rs:640-645 | zen import indices are translated to the temporary numbering |
| FinalizeImports.DependencyRoundTrip | src/asset_conversion.rs:640-645 | with an injective order, translating a dependency and finalizing it gives it back |
| AssetBuild.DependenciesUnchanged | src/asset_conversion.rs:1074-1076 | so the finished dependencies are numbered as in the zen package |
| AssetBuild.NothingAborts | src/asset_conversion.rs:1053-1076 | no reference of the package lacks a place when every import has one |
| AssetBuild.ImportsRefer | src/asset_conversion.rs:1017-1051 | the finished import map names, at every position the zen package uses, what the zen package lists there |
| AssetBuild.ExportsRefer | src/asset_conversion.rs:1062-1067 | all references of the finished exports mean what the zen exports say |
| AssetBuild.DependenciesRefer | src/asset_conversion.rs:1074-1076 | all finished dependencies mean what the zen dependencies say |
| AssetBuild.PrepareAsset | src/asset_conversion.rs:1086-1089 | imports, exports and dependencies resolve if and only if the package is convertible |
| AssetBuild.EntryCountIs | src/asset_conversion.rs:475-533 | the temporary import map holds every import that resolved imports are or lie in once, and two entries for each import that had to be replaced, whatever the order of the references |
| AssetBuild.PredefinedCount | src/asset_conversion.rs:501-543 | as many entries have predefined positions as the import map lists different imports |
| AssetBuild.EntryIsReferred | src/asset_conversion.rs:475-560 | every entry has a predefined position, is referred to by an export or is the outer of a later entry |
| AssetBuild.LostIsMissed | src/asset_conversion.rs:1046-1070 | an entry that found no place makes some remapping abort |
| AssetBuild.AbortsWithoutRoom | src/asset_conversion.rs:1007-1070 | every entry finds a place if and only if the package has room for its imports, and otherwise some remapping aborts |
| AssetBuild.RepeatedImportHasNoRoom | src/asset_conversion.rs:1010-1060 | a package whose import map names an object of another package twice is convertible but has no room, so its build aborts |
| AssetBuild.BuildAsset | src/asset_conversion.rs:1081-1093 | the whole conversion: it succeeds if and only if the package is convertible and has room for all imports, both read off the zen package; a finished package refers, through its own tables, to the same objects as the zen package everywhere; when no import is named twice there is room, and dependencies keep their numbers |
| FullNames.OuterChain | src/legacy_asset.rs:956-974 | the walk ends and collects the object and its outers, innermost first |
| FullNames.GetPackageObjectFullName | src/legacy_asset.rs:954-1016 | the result is the package followed by the names on the path, for imports and for exports, with override, separator and case applied |
| FullNames.DenotesHasPath | src/legacy_asset.rs:961-972 | an import entry that denotes an import has the path of that import |
| FullNames.PathIsKept | src/legacy_asset.rs:954-1016 | every object of a rehydrated package has the path it had in the zen package, so full names survive the conversion |
| ShaderGroups.AddMap | src/shader_library.rs:848-854 | each listed shader gains one reference per occurrence, other shaders none |
| ShaderGroups.CollectReferences | src/shader_library.rs:844-860 | every shader lists its referring maps in ascending order, each as often as the range of the map in the index table names the shader; unreferenced shaders list none |
| ShaderGroups.ReferencesList | src/shader_library.rs:844-860 | the collected list of a shader names each map as often as the map names the shader, and no other map |
| ShaderGroups.OrderIsTotal | src/shader_library.rs:864-874 | the comparison (count, then lists, then index) is a total order |
| ShaderGroups.SortedShaders | src/shader_library.rs:862-874 | all shaders: shorter reference lists first, then the smaller number where two lists first differ, then the smaller index |
| ShaderGroups.SortedInOrder | src/shader_library.rs:863-874 | sorted by the comparison means in that order |
| ShaderGroups.SortedShadersUnique | src/shader_library.rs:863-874 | the order does not depend on map iteration |
| ShaderGroups.SplitStreaks | src/shader_library.rs:876-904 | cutting the sorted list loses nothing; shaders of a streak have equal references, neighbouring streaks do not |
| ShaderGroups.StreaksAreClasses | src/shader_library.rs:876-904 | in sorted order equal references never come back, so streaks are the classes of equal references |
| ShaderGroups.SplitRaytracing | src/shader_library.rs:911-927 | a group is kept, or parted into its other and its raytracing shaders |
| ShaderGroups.PartsAreClasses | src/shader_library.rs:906-929 | parts differ in kind, so they are classes of equal references and kind |
| ShaderGroups.SeparateRaytracing | src/shader_library.rs:906-929 | all groups become classes of equal references and kind, with the same shaders |
| ShaderSplit.FindSmallest | src/shader_library.rs:969-975 | the first of the smallest groups |
| ShaderSplit.Distribute | src/shader_library.rs:963-980 | the loop places shaders exactly as the greedy rule says |
| ShaderSplit.SplitBySize | src/shader_library.rs:944-982 | a group is kept when small or single, otherwise split by the greedy rule |
| ShaderSplit.GreedyPlaces | src/shader_library.rs:956-981 | placing shaders largest first keeps sizes and contents right, uses as many groups as there are shaders to go round, and leaves each group less its smallest shader below the limit |
| ShaderSplit.SplitGroupBounded | src/shader_library.rs:944-982 | parts hold exactly the group, each part less its smallest shader is below the limit, there are one or min(size / limit + 1, shaders) of them, and none is empty if and only if there are enough shaders of positive size to go round |
| ShaderLimit.SinglesWithinLimit | src/shader_library.rs:943-982 | when the group has no more shaders than parts are called for, the parts are within the limit if and only if the shaders are |
| ShaderLimit.AverageWithinLimit | src/shader_library.rs:943-982 | with fewer parts than shaders the limit is kept whenever the average part leaves room for the largest shader |
| ShaderLimit.WithinLimitNeedsSmallShaders | src/shader_library.rs:943-982 | the limit is only kept if no shader exceeds it |
| ShaderLimit.EqualSizesWithinLimit | src/shader_library.rs:943-982 | for shaders of equal size the limit is kept if and only if the share of the fullest part, rounded up, is within it |
| ShaderLimit.GreedyDeals | src/shader_library.rs:963-980 | shaders of equal size are dealt to the parts in turn |
| ShaderLimit.LimitMayBeExceeded | src/shader_library.rs:943 | the claim of the comment fails for every limit: three equal shaders that fill it more than once but less than twice leave a part of two, above the limit whenever two of them are |
| ShaderSplit.PositiveSizesFill | src/shader_library.rs:956-982 | without shaders of size zero no group is empty |
| ShaderSplit.SplitAllOk | src/shader_library.rs:944-982 | splitting all classes keeps every shader, and each part stays inside one class and obeys the bound |
| ShaderSplit.SortGroups | src/shader_library.rs:984-989 | each group is sorted on its own |
| ShaderSplit.GroupingFromClasses | src/shader_library.rs:943-989 | splitting and sorting the classes of all shaders gives a grouping: every shader in one group, nobody mixed, all within the bound, and none empty if and only if every class fills its parts |
| ShaderSplit.BuildShaderGroups | src/shader_library.rs:842-989 | the groups of every library, shaders of size zero included: each shader in exactly one group, members of a group share references (and kind, for PCD3D_SM5), the size bound holds, and no group is empty if and only if every class fills its parts |
| ShaderArchive.PackRoundTrip | src/shader_library.rs:56-75 | each packed field reads back if and only if it fits its width |
| ShaderArchive.PackedBits | src/shader_library.rs:56-75 | the packed number has the frequency in its lowest 4 bits, the group in the 30 bits behind and the offset in the highest 30, each cut to its width |
| ShaderArchive.FindOrAddSequence | src/shader_library.rs:1009-1044 | the returned index lists the group; it is the first such place, or the group was appended because there was none |
| ShaderArchive.EnterGroup | src/shader_library.rs:1051-1063 | each shader of the group is entered with its group, its frequency and the summed size before it; others stay |
| ShaderArchive.BuildHeader | src/shader_library.rs:996-1081 | every group entry and every shader entry describes its group, and the index table grows by exactly the groups it did not list yet |
| ShaderArchive.CollectGroup | src/shader_library.rs:1136-1171 | the placement and size checks never fire: it fails exactly when a shader cannot be decompressed, otherwise the buffer holds the code of the shaders of the group, as stored or decompressed |
| ShaderArchive.CompressGroup | src/shader_library.rs:1173-1181 | the stored chunk is never larger than the group and can be told from a compressed one by its size |
| ShaderArchive.WriteLibrary | src/shader_library.rs:1130-1191 | all groups are stored with their compressed sizes; fails exactly when some shader cannot be decompressed; of shaders stored as code or compressed code, the code is what is stored |
| ShaderArchive.JoinSlice | src/shader_library.rs:298-314 | the code of each shader lies between its own and the next offset |
| ShaderArchive.OffsetsSorted | src/shader_library.rs:294-296 | sorting by offset finds the shaders already in order |
| ShaderArchive.GroupOffsets | src/shader_library.rs:277-292 | the group check never fires, and shaders come with their offsets |
| ShaderArchive.LoadGroup | src/shader_library.rs:263-275 | a stored chunk is decompressed to the group it was made from |
| ShaderArchive.ExtractGroup | src/shader_library.rs:298-314 | cutting at the offsets restores the code of exactly the shaders of the group |
| ShaderArchive.ReadArchive | src/shader_library.rs:241-333 | reading what was written restores the code of every shader, stored as it is or compressed; fails exactly when some shader is in no group |
| ShaderArchive.PartitionSupported | src/shader_library.rs:1046-1079 | groups that hold every shader once are groups the archive supports |
| ShaderArchive.PackAndRead | src/shader_library.rs:1130-1191 | packing a library into groups and reading it back returns codes c whenever every shader is stored as c[s], where its sizes agree, or as the compressed form of c[s] otherwise, however shaders were grouped; fails exactly when one cannot be decompressed |
| ShaderArchive.CodesAreStored | src/shader_library.rs:1147-1160 | a library that stores codes as they are or compressed can be read, and these codes are what it stores |
| ShaderPacking.ReferencedGroupFits | src/shader_library.rs:1010-1011 | a group of shaders that some map lists is never longer than the index table, so the subtraction there does not underflow |
| ShaderPacking.GroupsFit | src/shader_library.rs:1046-1079 | the groups of a library whose shaders are all listed fit the fields of the archive and the growing index table |
| ShaderPacking.GroupPackAndRead | src/shader_library.rs:1120-1191 | grouping, packing and reading together: whenever every shader s is stored as c[s], where its sizes agree, or as the compressed form of c[s] otherwise, the result is c; it fails exactly when some shader cannot be decompressed |
| ShaderLayout.CountReferences | src/shader_library.rs:468-480 | counts every reference to every shader |
| ShaderLayout.ShaderCodeWriter.WriteShader | src/shader_library.rs:602-605 | appends the code and records its region; regions written before stay right |
| ShaderLayout.ShaderCodeWriter.WriteShared | src/shader_library.rs:512-518 | exactly the shaders referred to more than once |
| ShaderLayout.ShaderCodeWriter.WriteMapRegion | src/shader_library.rs:520-541 | the recorded region of a map spans exactly the shaders only that map refers to |
| ShaderLayout.ShaderCodeWriter.WriteDetached | src/shader_library.rs:543-550 | exactly the shaders nobody refers to |
| ShaderLayout.LayoutShaderCode | src/shader_library.rs:467-627 | every shader is written, as its code or as its compressed code where that is smaller, with the flag that says whether one map alone refers to it once, and every map has its region; so the closing check never fires |
| ShaderLayout.AllLaidHold | src/shader_library.rs:590-614 | every region of a finished layout holds the code of its shader or, where that is smaller, its compressed code |
| ShaderLayout.LayoutTiles | src/shader_library.rs:590-614 | every byte of the buffer belongs to exactly one shader, and every region holds the written code of its shader |
| ShaderLayout.MapRegionCovers | src/shader_library.rs:596-601 | the region of a map covers exactly the bytes of its unique shaders |
| ShaderLayout.BuildMapPreload | src/shader_library.rs:770-798 | the preload entries of one map: its region if nonempty, then each shared shader it lists |
| ShaderLayout.BuildPreload | src/shader_library.rs:764-807 | each map points at its own preload entries in the flat list |
| ShaderLayout.SharedEntriesCover | src/shader_library.rs:783-798 | the shared entries cover exactly the bytes of the listed shared shaders |
| ShaderLayout.PreloadCoversExactly | src/shader_library.rs:764-807 | the preload entries of a map cover every byte of every shader of the map and no byte of any other shader |
| DirectoryIndex.DirectoryIndexResource.EnsureRoot | src/main.rs:2604-2614 | there is a root with the empty path |
| DirectoryIndex.DirectoryIndexResource.GetOrCreateName | src/main.rs:2667-2677 | a name entry that spells the name, added only when missing |
| DirectoryIndex.DirectoryIndexResource.GetOrCreateDir | src/main.rs:2615-2641 | the directory with the extended path; all others keep theirs |
| DirectoryIndex.DirectoryIndexResource.GetOrCreateFile | src/main.rs:2642-2666 | the file with the extended path, new ones with value 0 |
| DirectoryIndex.AddChild | src/main.rs:2626-2640 | linking a new child behind the last one keeps the tables a tree: acyclic links, sibling names distinct, every path unique |
| DirectoryIndex.AddFileOk | src/main.rs:2653-2665 | the same for a new file |
| DirectoryIndex.DirectoryIndexResource.AddFile | src/main.rs:2678-2687 | the index refines a map from paths: adding a file updates exactly that path |
| DirectoryIndex.FilesUnderDistinct | src/main.rs:2568-2600 | no file is reached twice |
| DirectoryIndex.AllFilesReached | src/main.rs:2568-2600 | every file is reached from the root |
| DirectoryIndex.Iter | src/main.rs:2568-2600 | visits the files below a directory with their full paths, ends, and leaves the name stack as it was |
| DirectoryIndex.IterRoot | src/main.rs:2560-2567 | visits every path of the map exactly once, with its last value, and no other path |
| ChunkStore.MaskClears | src/main.rs:1668-1673 | masking with the complement of 2^k - 1 subtracts the remainder modulo 2^k |
| ChunkStore.AlignRoundsUp | src/main.rs:1668-1673 | masked alignment is rounding up to the next multiple, for every power of two and every sum below 2^64 |
| ChunkStore.OffsetAndLengthRoundTrip | src/main.rs:2110-2133 | offset and length below 2^40 read back from the ten packed bytes |
| ChunkStore.PackedBytes | src/main.rs:2112-2133 | bytes 0 to 4 are the digits of the offset and bytes 5 to 9 those of the length, highest first |
| ChunkStore.BlockRoundTrip | src/main.rs:2162-2202 | offset below 2^40, both sizes below 2^24 and the method read back from the twelve packed bytes |
| ChunkStore.BlockBytes | src/main.rs:2162-2202 | bytes 0 to 4 are the digits of the offset, 5 to 7 of the compressed and 8 to 10 of the uncompressed size, lowest first, and byte 11 is the method |
| ChunkStore.CutBlocks | src/iostore_writer.rs:90-106 | block j of the data covers bytes j * 0x10000 up to the next block or the end, and there are as many blocks as rounding up gives |
| ChunkStore.AlignRange | src/main.rs:1770-1773 | the block range computed when reading is the range the chunk was given |
| ChunkStore.ChunkWriter.WriteChunk | src/iostore_writer.rs:69-125 | the data is appended and can be found through its entry; every earlier chunk still can |
| ChunkStore.ChunkWriter.ReadBlocks | src/main.rs:1800-1849 | copying the blocks of a chunk restores its data |
| ChunkStore.ChunkWriter.Read | src/main.rs:1765-1850 | entry i returns exactly the i-th data written, empty chunks included; only an empty chunk at the very start of the block table makes the subtraction of one go below zero |
| StoreEntries.EntryRoundTrip | src/container_header.rs:617-657 | in every version an entry has the advertised size and reads back all fields of that version |
| StoreEntries.ViewFields | src/container_header.rs:582-657 | the array of imported packages stands at the member offset of the version and that of shader map hashes right behind it, each as count and relative offset |
| StoreEntries.RegionsApart | src/container_header.rs:534-573 | entries, and the arrays of entries, never overlap |
| StoreEntries.ViewsLead | src/container_header.rs:554-565 | self-relative offsets lead back to the arrays they were made for |
| StoreEntries.ArraysHold | src/container_header.rs:552-566 | behind the entries stand the package ids in eight bytes each and then the hashes in twenty bytes each, in order |
| StoreEntries.WriteEntry | src/container_header.rs:537-573 | one step writes the arrays and the entry in their places and leaves all other bytes |
| StoreEntries.Serialize | src/container_header.rs:516-577 | the buffer holds every entry and all its arrays |
| StoreEntries.ReadEntries | src/container_header.rs:462-464 | the fixed entries come back |
| StoreEntries.Deserialize | src/container_header.rs:446-514 | reading a written buffer restores each entry, restricted to what its version stores |
| StoreEntries.WriteAndRead | src/container_header.rs:446-577 | in every version, writing a store and reading it back gives the same packages with the fields of that version |
| NameBatch.WriteNameBatchParts | src/name_map.rs:109-133 | the buffer is the names one after another, wide names on even positions |
| NameBatch.EncodedName | src/name_map.rs:109-133 | byte by byte: a name of characters below 0x80 is its length, high byte first, and one byte a character; any other has 0x8000 added to its length and two bytes a unit, low byte first, from the next even position on |
| NameBatch.TruncateKeeps | src/ser.rs:253-264 | a read name is whole if and only if it contains no zero |
| NameBatch.TruncatedAtZero | src/ser.rs:253-264 | what is read of a name is everything before its first zero |
| NameBatch.NameReadBack | src/name_map.rs:94-107 | a name written at any position reads back, up to a first zero, and the position moves behind it, whatever stands around it |
| NameBatch.ReadNameBatchParts | src/name_map.rs:94-107 | all names of a written buffer come back, in order, up to a first zero |
| NameBatch.RoundTrip | src/name_map.rs:94-133 | writing and reading names is the identity if and only if no name contains a zero |
| FilePool.HandlesKept | src/file_pool.rs:11-18 | no step gives one handle to two clients, or to a client while it is available |
| FilePool.CountKept | src/file_pool.rs:61-86 | every step keeps available + held = active <= maximum |
| FilePool.WakeupsKept | src/file_pool.rs:61-86 | every step keeps: while a client waits un-notified, the pool is full and each available handle is matched by a notified client yet to run |
| FilePool.StepKeepsInv | src/file_pool.rs:61-86 | every step of every client, spurious wakeups and failed opens included, keeps all three |
| FilePool.RunsAreSafe | src/file_pool.rs:61-86 | so they hold in every state of every run |
| FilePool.NeverStuck | src/file_pool.rs:61-86 | while nobody holds a handle, a client that wants one, or another in its stead, can be served |
| PackageLookup.StepKeepsInv | src/asset_conversion.rs:116-166 | every step of every call keeps: no package both cached and failed, one call per package lock, loads only of packages neither cached nor failed; what is settled stays |
| PackageLookup.RunsAreSafe | src/asset_conversion.rs:102-166 | these hold in every state of every run |
| PackageLookup.RunsSettle | src/asset_conversion.rs:102-166 | what is cached, failed or returned never changes later |
| PackageLookup.ResultsAgree | src/asset_conversion.rs:102-166 | two successful calls, at any times of a run, return the same header if and only if they asked for the same package |
| PackageLookup.FailureIsFinal | src/asset_conversion.rs:109-112 | once a package is marked as failed no call finds it, before or after |
| PackageLookup.NeverStuck | src/asset_conversion.rs:121-127 | while some call has not returned, some call can take a step |
| Bytes.LittleEndianByte | src/ser.rs:199-228 | byte k of a written unsigned number is its digit of weight 256 ^ k |
| Bytes.I32Byte | src/ser.rs:209-218 | byte k of a written signed number is its digit of weight 256 ^ k as well, for negative numbers rounding downwards |

## Left out

- Command types: only Create and Serialize are modelled; the third value of the source's enumeration is never stored in an entry.
- Widths of indices and counts: casts between usize, u32, i32 and u64 are not modelled where a table would have to exceed 2^31 entries; widths are modelled where bytes are packed (arcs, names, shader entries, chunk tables, store entries).
- Hash sets and hash maps: a set that only prevents duplicates is membership in the list it guards; maps are finite maps, and results are shown not to depend on their iteration order.
- LoadOrder.SortDependenciesInLoadOrder: the heap is a multiset whose pop takes a greatest element of the comparison; its array layout is not modelled.
- Bundles.BuildPreloadDependencies: which imports are script imports or package exports, and their target packages, are inputs; resolving legacy imports and hashing public export names are not modelled.
- BundleLinks.ResolveExportDependencies: dependencies on objects of other packages are inputs, already resolved to imports; looking up bundles of other packages for them (src/asset_conversion.rs:803-864) is not modelled.
- ArcSection.SerializeLegacyArcs: of the zen header only the section of legacy arcs is serialized; everything around it is arbitrary bytes. Numbers fit their fields.
- PackageFixup.ConvertAndFixup: bundle numbers, dependency counts and package counts stay below 2^31, and imported packages are distinct; the mappings of the other packages are an input, and their locks are not modelled.
- ExportData.RebuildExportData: the sizes of a package are added without wrap-around; each export is serialized by one entry.
- DependencyBundles.ResolveDependencyBundles: asks for headers whose runs lie inside the entries, where the source would stop at an index out of range.
- ImportTable.ResolveLocalPackageObject: which zen imports resolve, and to what, is a given map that does not change during a conversion; following them through other packages and script objects is not modelled.
- ImportTable.BuildExport: of an export only its references and name are kept; flags, sizes and serial offsets are not (serial offsets are in ExportData).
- AssetBuild.BuildAsset: data resources, whose outer index is remapped like the others, prestream package imports and the building of the summary are not modelled.
- FullNames.GetPackageObjectFullName: asks for an object with a finite outer chain; a null object and cyclic outers are outside.
- ShaderSplit.BuildShaderGroups: asks for a positive limit, by which the source divides.
- ShaderLimit.AverageWithinLimit: for shaders of different sizes and fewer parts than shaders the condition is sufficient only; deciding it exactly means running the greedy placement.
- ShaderArchive.PackAndRead: compression is a pair of functions of which one undoes the other, with nonempty code; chunk ids are given and distinct; groups fit the 30-bit fields and the index table.
- ShaderPacking.GroupPackAndRead: every shader is listed by some map, as the source needs it, and a limit plus a shader fits the 30-bit offset; chunk ids, hashes of the group in the source, are an injective function of it.
- ShaderLayout.LayoutShaderCode: compressing shaders in parallel is modelled as the order-preserving sequence of messages its channel delivers; compression is an arbitrary function here.
- DirectoryIndex.DirectoryIndexResource.AddFile: asks for a path with at least one component, as the source unwraps it; serialization of the tables is not modelled.
- ChunkStore.ChunkWriter.Read: unencrypted chunks stored without compression, which is what the writer produces; file and block table stay below the 40-bit fields.
- ChunkStore.ChunkWriter.WriteChunk: chunk ids, hashes and metadata kept beside the entries are not modelled.
- StoreEntries.WriteAndRead: packages are a list in key order instead of an ordered map; the length prefixes of the two outer arrays are not modelled; offsets fit 32 bits.
- NameBatch.ReadNameBatchParts: names are UTF-16 code units, and narrow bytes of 0x80 and above, which no writer produces, are not decoded as UTF-8; the buffer of name hashes and the variant with separate headers (src/name_map.rs:36-92) are not modelled.
- FilePool.StepKeepsInv: opening a file succeeds or fails arbitrarily; files are numbers.
- PackageLookup.StepKeepsInv: reading and parsing a package succeeds, fails or aborts arbitrarily; the lock of the script objects is not modelled.
- Container sections other than the above, script objects, compact binary, pak files, command line, logging, cryptography and compression formats: plumbing or foreign code.
