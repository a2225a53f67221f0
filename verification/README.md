# Models of Gazelle's build-file generator

These Dafny modules model the parts of Gazelle, a generator of Bazel build files, in
which a fast, incremental or rewritten form has to agree with a simple meaning, and
prove that it does. `dafny verify dfyconfig.toml` checks everything.

| area | files |
|---|---|
| Go build constraints: rewriting tag expressions, classifying a file as generic, OS, arch or platform specific, accumulating its strings, emitting them | `BuildConstraints`, `FileConstraints`, `Platforms`, `PlatformStringsBuilder`, `GoTargets` |
| The rule index: memoised depth-first closure over the embed graph, inverted import index, lookup; choosing among matches | `EmbedGraph`, `RuleIndex`, `IndexCycles`, `MatchSelection` |
| The parsed-model cache: overlay layers with tombstones, futures per parser, freezing, persistence; the repository snapshot over it; priming | `ParsedCache`, `CacheRuns`, `Snapshots`, `Priming` |
| Pruning the repository tree while it is read, and walking it; which directories and files that leaves and calls back, in terms of the patterns and the build files on the way | `TreeBuild`, `PrunedWalk`, `Exclusions`, `KeptTree`, `CalledBack` |
| The concurrent directory cache: a once-per-key memo, and the bounded traversal that fills it | `OnceMemo`, `PopulateCache` |
| Editing build files: the three-cursor list edit behind `Sync`, merging of rules | `ListEdit`, `StmtHandles`, `EditPass`, `FileSync`, `BuildExprs`, `MergeLists`, `MergeDicts`, `MergedSelects`, `MergeRules`, `MergeOutcomes`, `ExtractionErrors`, `MergeIdempotence`, `MergeSwaps`, `MergeLosses` |
| Labels: parsing and printing; paths | `Labels`, `Paths` |
| Shared | `Sorting`, `Options` |

Objects that the program updates in place are classes here (`PlatformStringsBuilder`,
`RuleIndex`, `CacheBuilder`, `BuildSnapshot`, `File`, `Stmt`, `Rule`), loops are loops,
and each method is proved against a function or relation whose properties the lemmas
state. The two concurrent protocols are state machines over atomic steps; "in every
run" means in every finite interleaving of them. Glob matching, digests, path joining,
parsers and encoders, and the reading of select keys as labels, are function parameters.
What is needed of them (a digest without collisions, decoding that undoes encoding) is a
hypothesis of the lemmas that use it.
Loops over Go maps and results that come over channels are taken in any order.

Where the code and its comments disagree, the code is modelled:

- `checkConstraints` (language/go/fileinfo.go:576-588) is documented to fail every OS
  tag, negated or not, when no OS is given. The check is the value of the constraint with
  all OS tags false, so a negated one holds
  (`FileConstraints.EmptyOSReadsOSTagsAsFalse`, `FileConstraints.EmptyOSFailsPlainTagsOnly`).
- Dropping the negation of ignored tags is documented as making them always hold. When
  one occurs both plainly and negated the stored constraint is weaker than that
  (`BuildConstraints.RepeatedIgnoredTagIsWeaker`). A user tag that names an OS or an
  architecture has its constraints inverted; the check never excludes a file that could
  be built exactly if no user tag does (`FileConstraints.GenericTagsOpenIff`).
- Merging is documented to keep what is marked "keep". A mark on the value alone, and
  not on the assignment, deletes the attribute (`MergeLosses.MarkedValueIsDeleted`).
- Extraction is documented to return an error for an expression of another form
  (rule/expr.go:216-220). Operands that are neither lists nor calls are passed over
  instead, so merging loses them: none is lost exactly if there is none
  (`BuildExprs.ExtractionKeepsIff`, `MergeLosses.OthersAreLostIff`).
- A merged list is documented to be broken into lines if any string in it is marked
  (rule/merge.go:211-213). Only marks in the old list count (`MergeLists.MergedListForm`).
- Merging a generated rule twice should be merging it once. It is not always: of a select
  of operating systems that is left with a kept default only, the second merge makes a
  platform select, which comes after the select of architectures
  (`MergeSwaps.BareDefaultSwaps`); and a value that is deleted for its mark comes back if
  the rule is generated with it. `MergeIdempotence.MergeRulesIdempotentIff` has the exact
  condition, and `MergeSwaps.MergeRulesNoSwapIff` that for selects with keys of one kind
  each, in terms of what is merged. A third merge never changes anything
  (`MergeIdempotence.MergeRulesSettle`).
- `DeleteSubtree` of the root removes nothing (`ParsedCache.RemoveSubtreeIsWhole`), and
  `StoreEntry` lifts the tombstone of its path (`ParsedCache.StoreLaw`), so that a run
  on the layers is one on a plain map exactly if no lifted tombstone hid anything of
  another parser (`CacheRuns.LayersRefinePlainMapIff`).
- The label `//:.` is accepted, and printed as `//`, which is not
  (`Labels.NameLostIsParsed`).
- The index can miss imports of rules that reach a cycle of embeds, and which ones
  depends on the order in which rules are added: of a circle of rules the first two that
  were added get everything and all later ones miss something
  (`IndexCycles.CircleIff`), so a circle of two loses nothing. Labels from which no cycle
  is reached are exact in every graph (`RuleIndexes.FinishWhereTame`).
- A rule without a name in the root package has the label that the choice among matches
  takes for "none so far". It can make the outcome depend on the order of the matches
  (`MatchSelection.OrderMattersIff`).

## Model

| member | source | states |
|---|---|---|
| BuildConstraints.PushNotPreservesMeaning | language/go/build_constraints.go:304-340 | pushing negations down gives an expression with the same (or, if a negation is pending, the opposite) value under every assignment of tags |
| BuildConstraints.PushNotIsNegationNormal | language/go/build_constraints.go:304-340 | afterwards negations stand on tags only, and the same tags occur in the same order |
| BuildConstraints.PushNotFixesNormalForms | language/go/build_constraints.go:304-340 | an expression in that form is left alone |
| BuildConstraints.DropNegationCompose | language/go/build_constraints.go:145-190 | dropping negations of two groups of tags in turn is dropping those of the union |
| BuildConstraints.DropIsExistential | language/go/build_constraints.go:145-190 | the rewritten constraint holds whenever some assignment of the ignored tags satisfies the original, and only then if no ignored tag occurs in both polarities |
| BuildConstraints.DropIsSplitSatisfiability | language/go/build_constraints.go:145-190 | without that condition: it holds exactly when the plain and the negated occurrences of the ignored tags can be assigned separately so that the original holds |
| BuildConstraints.NewBuildTagsIdempotent | language/go/build_constraints.go:106-114 | storing a stored constraint again changes nothing, and the raw tags are those of the source line |
| BuildConstraints.StoredIff | language/go/build_constraints.go:106-114 | an expression is a stored one exactly if negations stand on tags only, and on none that is ignored |
| BuildConstraints.StoredConstraintMeaning | language/go/build_constraints.go:106-114 | for any constraint as written: what is stored is its satisfiability over the ignored tags, in particular if each occurs at most once |
| BuildConstraints.RepeatedIgnoredTagIsWeaker | language/go/build_constraints.go:106-114 | with an ignored tag in both polarities the stored constraint can hold although the original never does |
| BuildConstraints.DefaultIgnoredIff | language/go/build_constraints.go:282-298 | the tags that are ignored by default are four names, those that begin with "goexperiment.", and "go" with one digit, a dot and digits |
| FileConstraints.IsOSArchSpecific | language/go/fileinfo.go:533-557 | a file is OS (arch) specific exactly if its name or one of its constraint tags, cgo ones included, names an OS (arch) |
| FileConstraints.OSSpecificIff | language/go/fileinfo.go:533-557 | the same in terms of the constraint as it is written, over the tables: any tag in it that is an OS or "unix", any other tag that is an arch |
| FileConstraints.SuffixIff | language/go/fileinfo.go:561-629 | a file named for an OS is built on that OS, on those that have it for an alias, and if it is "unix" on those of that set; a file named for an arch on that arch |
| FileConstraints.CheckedTagIff | language/go/fileinfo.go:561-629 | for any tag, OS and arch: what the tag comes to, and what its negation does, over the tables alone |
| FileConstraints.AliasIsOneWay | rule/platform.go:110-113 | files for an alias are built on the OS that has it, and files for that OS are not built on the alias |
| FileConstraints.ClassificationSound | language/go/fileinfo.go:533-629 | leaving out the OS of a file that is not OS specific, and the arch of one that is not arch specific, does not change the result of the check on any platform |
| FileConstraints.NoNegatedIgnored | language/go/fileinfo.go:589-629 | in a stored constraint, dropping the negation of the user's generic tags leaves no negated tag for the default rule to drop |
| FileConstraints.CheckIsExistential | language/go/fileinfo.go:589-629 | for any user tags: the check succeeds when some assignment of the open tags satisfies the constraint, as it is read, and the name fits, and only then if each open tag has one polarity; user tags that name a platform are read unnegated; what single tags come to, `FileConstraints.CheckedTagIff` says |
| FileConstraints.ReadAsWritten | language/go/fileinfo.go:589-629 | if the user's tags name no platform, the constraint is read as it is written |
| FileConstraints.GenericTagsOpenIff | language/go/fileinfo.go:589-629 | exactly then, on every platform and for every constraint, a file that some assignment of the ignored and user tags allows is not excluded; and the check is exact where each of those tags has one polarity |
| FileConstraints.EmptyOSReadsOSTagsAsFalse | language/go/fileinfo.go:576-629 | with no OS given, the check of any file is the value of its constraints, on any OS, with all OS tags false |
| FileConstraints.EmptyOSIsAnother | language/go/fileinfo.go:576-629 | it is the check on an OS that the file does not name |
| FileConstraints.EmptyOSFailsPlainTagsOnly | language/go/fileinfo.go:576-629 | so a plain OS tag fails and a negated one holds |
| FileConstraints.GenericPlatformTagInverts | language/go/fileinfo.go:589-629 | a user tag that names an OS or an architecture makes its negation exclude a file from the very platforms that it is for |
| Platforms.Init | rule/platform.go:152-173 | from any platform list: the sets of OSs and archs, and for each OS its archs and for each arch its OSs, are exactly those of the list |
| GoTargets.PlatformStringsAddFunction | language/go/package.go:373-438 | placement is exact: the chosen shortcut covers a known platform exactly when the direct check succeeds there and rules_go supports it |
| GoTargets.MatchingOSs | language/go/package.go:388-396 | the OSs a file is added for are exactly the known, supported ones it passes the check on |
| GoTargets.MatchingArchs | language/go/package.go:404-412 | the same for archs |
| GoTargets.MatchingPlatforms | language/go/package.go:420-428 | the same for platforms |
| GoTargets.NewRulesGoSupportsAll | language/go/fileinfo.go:631-678 | a newer or unknown rules_go recognises every OS, arch and platform |
| GoTargets.OldRulesGoLacks | language/go/fileinfo.go:631-678 | an old one does not recognise two OSs, one arch and eight platforms, and recognises all others |
| GoTargets.CollectStrings | language/go/package.go:305-348 | end to end, for any sequence of files: after building, a string is selected on a known platform exactly if a file that contributes it is built there, at most once, and stands in one of the four sets only |
| PlatformStringsBuilders.PlatformStringsBuilder.AddGenericString | language/go/package.go:453-458 | the string is covered on every platform, others as before |
| PlatformStringsBuilders.PlatformStringsBuilder.AddOSString | language/go/package.go:460-488 | the string is covered, besides where it was, on the platforms of the given OSs, whatever form it was stored in |
| PlatformStringsBuilders.PlatformStringsBuilder.AddArchString | language/go/package.go:490-518 | the same for archs |
| PlatformStringsBuilders.PlatformStringsBuilder.AddPlatformString | language/go/package.go:520-540 | the same for platforms |
| PlatformStringsBuilders.ConvertToPlatforms | language/go/package.go:599-632 | the platform form of an OS or arch set covers the same known platforms |
| PlatformStringsBuilders.PlatformStringsBuilder.Build | language/go/package.go:542-588 | what is emitted is the one emission of the accumulated strings: sorted lists under exactly the keys each string has |
| PlatformStringsBuilders.EmissionUnique | language/go/package.go:542-588 | the emission does not depend on the order in which the map of strings is walked |
| PlatformStringsBuilders.EmissionSelects | rule/platform_strings.go:43-72 | on every platform the concatenated selects hold a string exactly when the builder covers it there, at most once; each string is in one set only |
| RuleIndexes.RuleIndex.AddRule | resolve/index.go:155-192 | a rule is recorded, with absolute embeds, unless it has no resolver, is filtered out by language, or reports that it is not importable |
| RuleIndexes.RuleIndex.Finish | resolve/index.go:200-218 | the four tables are those of the collection over the recorded rules, and the import table lists for each import the providing rules in the order added |
| RuleIndexes.RuleIndex.CollectRecordEmbeds | resolve/index.go:230-250 | one memoised step, with its set of labels already expanded, is the collection of that record on the tables as values; it terminates on any graph |
| RuleIndexes.FinishOnAnyGraph | resolve/index.go:220-250 | on every embed graph, cyclic ones included: each label is expanded once, the embedded labels are exactly those a rule of the same language embeds, and nothing unreachable enters the tables |
| RuleIndexes.FinishWhereTame | resolve/index.go:220-250 | in any graph: for a label from which no cycle is reached, the imports are exactly those of all rules reachable by embeds, and the embeds exactly the direct ones of itself and of all reachable by same-language embeds |
| RuleIndexes.FinishOnAcyclicGraph | resolve/index.go:220-250 | so on an acyclic graph that is so for every label |
| IndexCycles.CircleIff | resolve/index.go:220-250 | of any number of rules in a circle, each with an import of its own, the tables of the i-th added are exact exactly if it is the first or the second |
| IndexCycles.CircleIndexIff | resolve/index.go:220-250 | so the index of a circle is exact exactly if there are at most two rules in it |
| IndexCycles.CyclicIndexLosesImports | resolve/index.go:230-250 | three rules in a circle: an import that is reachable from the third is missing there, and none is missing at the second |
| RuleIndexes.RuleIndex.BuildImportIndex | resolve/index.go:253-268 | the inverted index has under each import exactly the rules that are not embedded and import it |
| RuleIndexes.RuleIndex.FindRulesByImport | resolve/index.go:293-306 | the results are those of the requested language; the embeds of each are in the closure of its label, and are the whole closure if no cycle is reached from it |
| RuleIndexes.FindIsExact | resolve/index.go:253-306 | a lookup returns the non-embedded rules of the language whose reachable imports contain the spec, in the order added, each once if labels are unique, provided that no cycle is reached from a non-embedded rule of that language |
| RuleIndexes.FoundEmbeds | resolve/index.go:293-306 | the embeds that come with a result are in the closure of its label on any graph, and are the whole closure if no cycle is reached from it |
| RuleIndexes.AbsAllIs | label/label.go:181-189 | a relative embed names the rule of that name in the rule's own package, any other is as it was given |
| EmbedGraph.CollectSound | resolve/index.go:230-250 | a step adds to a label only what is reachable from it |
| EmbedGraph.CollectMarks | resolve/index.go:230-250 | a step marks exactly the embedded labels of the rules it expands |
| EmbedGraph.CollectCompletes | resolve/index.go:230-250 | on any graph a step leaves the closure of its label complete if no cycle is reached from it, and those of finished labels alone |
| MatchSelection.VendoringIsInnermost | language/go/resolve.go:210-220 | the vendor root is that of the last path element called "vendor", and there is none exactly if no element is |
| MatchSelection.ResolveWithIndexGo | language/go/resolve.go:191-261 | outside repository mode the outcome is that of the collection of named matches, in no order, and by elements of packages the deepest of those that count; but it is ambiguous if a nameless match comes after a visible one and none is vendored. In repository mode, if none that counts is vendored, it is the only one that embeds a library of generated protos, or the only one. In both modes what is found counts, and nothing is found exactly if none counts, unless a nameless one embeds protos |
| MatchSelection.OrderMattersIff | language/go/resolve.go:191-261 | the outcome outside repository mode depends on the order of the matches exactly if a single visible one is named, it is not vendored, and there is a nameless one |
| MatchSelection.AmbiguousIff | language/go/resolve.go:232-252 | it is ambiguous exactly if two visible matches, counted with repetition, share the highest rank |
| MatchSelection.OutcomeByElements | language/go/resolve.go:191-261 | by elements of packages: a vendored match counts exactly if the importing package is in its repository and begins with the elements before the last "vendor"; the one found is the deepest of those that count; none is found exactly if none counts |
| MatchSelection.MisplacedIsNotFound | language/go/resolve.go:210-224 | a vendored match alone, imported from outside the parent of its vendor directory, is not found, whatever the name of that package begins with |
| Paths.HasPathPrefixIff | pathtools/path.go:28-36 | one clean path is a prefix of another exactly if its elements are the first ones of the other |
| Paths.BaseIsLast | vfsgazelle/internal/vfs/repo.go:254-256 | the base of a clean path is its last element |
| ParsedCache.FlattenEntries | vfsgazelle/internal/vfs/cache.go:540-594 | the flattened map holds what a lookup finds, at every key; it fails exactly if a pending load has failed |
| ParsedCache.FlatteningUnique | vfsgazelle/internal/vfs/cache.go:540-594 | a stack of layers has one flattened map |
| ParsedCache.SnapshotByParser | vfsgazelle/internal/vfs/cache.go:438-455 | the entries are split by parser, each group complete and sorted by path |
| ParsedCache.ReattachPreservesLookup | vfsgazelle/internal/vfs/cache.go:609-624 | splitting by parser and attaching the parts as pending loads preserves every lookup |
| ParsedCache.CacheBuilder.Lookup | vfsgazelle/internal/vfs/cache.go:462-488 | the builder finds what a lookup through its layer and those below finds |
| ParsedCache.CacheBuilder.Parse | vfsgazelle/internal/vfs/cache.go:100-153 | a hit needs equal content hash and version and leaves the cache alone; a miss parses, and the cache is as if that entry had been inserted |
| ParsedCache.CheckFailsIff | vfsgazelle/internal/vfs/cache.go:193-224 | a check by content fails exactly if the parser has no key or version, the lookup fails, or what is stored for the content does not decode |
| ParsedCache.CacheBuilder.StoreEntry | vfsgazelle/internal/vfs/cache.go:258-262 | the entry is stored and the tombstone of its path is lifted |
| ParsedCache.CacheBuilder.DeletePath | vfsgazelle/internal/vfs/cache.go:265-276 | own entries of the path go and those below are hidden |
| ParsedCache.CacheBuilder.DeleteSubtree | vfsgazelle/internal/vfs/cache.go:279-290 | the same for everything under a directory |
| ParsedCache.CacheBuilder.Freeze | vfsgazelle/internal/vfs/cache.go:293-309 | the frozen cache is the builder's layer, and the builder is left empty |
| ParsedCache.RemovePathLaw | vfsgazelle/internal/vfs/cache.go:265-276 | afterwards nothing is found at the path, and all else as before |
| ParsedCache.RemoveSubtreeLaw | vfsgazelle/internal/vfs/cache.go:279-290 | afterwards nothing is found under the directory, and all else as before |
| ParsedCache.RemoveSubtreeIsWhole | vfsgazelle/internal/vfs/cache.go:279-290 | the whole subtree is removed, in every cache, exactly if it is not that of the root |
| ParsedCache.RemoveSubtreeByElements | vfsgazelle/internal/vfs/cache.go:279-290 | by elements: what is in the directory or below is hidden, and nothing beside it |
| ParsedCache.StoreLaw | vfsgazelle/internal/vfs/cache.go:258-262 | storing finds the entry, may uncover other parsers' entries at that path in layers below, and changes no other lookup |
| ParsedCache.StoreIsInsertIff | vfsgazelle/internal/vfs/cache.go:258-262 | it is a plain insertion exactly if the lifted tombstone hid nothing of another parser |
| ParsedCache.ReseedLaw | vfsgazelle/internal/vfs/cache.go:87-94 | building on a frozen cache preserves every lookup |
| CacheRuns.HitIsFreshParse | vfsgazelle/internal/vfs/cache.go:158-221 | a hit checked by hash returns the model and hashes of a fresh parse, a miss means that nothing is stored for this content and version, and decoding a stored entry never fails |
| CacheRuns.RunFaithful | vfsgazelle/internal/vfs/cache.go:100-309 | after any sequence of operations every entry, hidden or not, is that of a fresh parse of some content |
| CacheRuns.CacheIsTransparent | vfsgazelle/internal/vfs/cache.go:100-377 | after any sequence of parses, stores, removals, freezes and reattachments, a content-checked hit is what parsing that content would return |
| CacheRuns.LayersRefinePlainMapIff | vfsgazelle/internal/vfs/cache.go:258-594 | a run on the layers is, after each operation, the run on the flattened map (insert, remove path, remove subtree, identity), exactly if no store lifts a tombstone that hides something of another parser |
| Snapshots.LookupIsFlat | vfsgazelle/internal/vfs/repo.go:1095-1144 | looking up a file or a directory through the overlays is looking into the flattened maps |
| Snapshots.FilePaths | vfsgazelle/internal/vfs/repo.go:1167-1186 | the visible files, once each and sorted |
| Snapshots.DirPaths | vfsgazelle/internal/vfs/repo.go:1209-1228 | the visible directories, once each and sorted |
| Snapshots.WithFileContents | vfsgazelle/internal/vfs/repo.go:1242-1291 | whatever order the updates come in: updated files have the new content and digest, the content of an empty one as if left on disk, other files are as before, and each directory lists what it did and the new names, sorted if it was |
| Snapshots.NewNamesIff | vfsgazelle/internal/vfs/repo.go:1242-1291 | a name is new in a directory exactly if the file of that name in it is among the updates |
| Snapshots.ParentOfPath | vfsgazelle/internal/vfs/repo.go:1242-1291 | the directory that a file is listed in has all elements of its path but the last, which is the name |
| Priming.MatchingParsers | vfsgazelle/internal/vfs/repo.go:71-92 | exactly the parsers one of whose matchers accepts the path, or that have none, in key order |
| Priming.WantedIff | vfsgazelle/internal/vfs/repo.go:71-92 | a parser without matchers is primed for every file, one with matchers for the files that one of them accepts |
| Priming.ScanFile | vfsgazelle/run/run.go:458-480 | for each parser a model is stored for the recorded hash or for the content, or there is a job with the content; once read, the content serves the other parsers |
| Priming.Scan | vfsgazelle/run/run.go:458-492 | the same for every visible file and every parser that applies |
| Priming.ParseAndStore | vfsgazelle/run/run.go:497-543 | in whatever order workers finish, every job's entry is found afterwards, what was found before still is, and all entries stay faithful |
| Priming.PrimeParsers | vfsgazelle/run/run.go:446-545 | both together, or an error |
| Priming.FoundStaysFound | vfsgazelle/internal/vfs/cache.go:258-262 | storing one entry takes away nothing that was found |
| Priming.PrimingIsComplete | vfsgazelle/run/run.go:446-545 | after priming and freezing the snapshot has a model for every visible file and every parser that applies, if the disk agrees with the recorded hash |
| Priming.DisagreementMisses | vfsgazelle/internal/vfs/repo.go:920-950 | for a file with no model stored for its recorded hash before, agreement is also necessary |
| Priming.FrozenModelIsFresh | vfsgazelle/internal/vfs/repo.go:920-950 | a model found for content or by hash is what parsing the file's content gives |
| Priming.CheckPathIff | vfsgazelle/internal/vfs/cache.go:226-255 | a check by path is a hit exactly on an entry of the parser's version, whatever its content |
| Priming.BuildSnapshot.GetModel | vfsgazelle/internal/vfs/repo.go:790-823 | during the build a stored model is returned and nothing changes; otherwise the model is that of a fresh parse, failing only if parsing or the lookup fails; no file changes but for its content being filled in |
| TreeBuild.ApplyTraversalDirectives | vfsgazelle/internal/vfs/repo.go:458-480 | the directives take effect in order; invalid patterns do not |
| TreeBuild.LoadBuildData | vfsgazelle/internal/vfs/repo.go:408-422 | the first valid name that an entry other than a directory bears |
| TreeBuild.BuildTree | vfsgazelle/internal/vfs/repo.go:288-406 | the tables hold the pruned tree, exactly: its files with their contents, its directories with sorted listings, nothing else; empty if it prunes to nothing, an error if a visited build file does not parse; what that is in terms of the patterns, `KeptTree.BuildRepository` says |
| TreeBuild.BuildChildren | vfsgazelle/internal/vfs/repo.go:355-401 | in whatever order child workers finish the tables come to the same, and a child that prunes to nothing is no longer listed |
| TreeBuild.PutOneMore | vfsgazelle/internal/vfs/repo.go:385-400 | the tables of one more entry are added without loss: results of different entries have no path in common |
| TreeBuild.DirBuilt | vfsgazelle/internal/vfs/repo.go:402-405 | with its own sorted listing the directory's tables are complete |
| Exclusions.SaysIff | vfsgazelle/internal/vfs/repo.go:408-456 | the build file that is read, and what it says, over the entries: the first valid name that one of them bears, a regular file that parses |
| Exclusions.AfterDirectivesIs | vfsgazelle/internal/vfs/repo.go:458-480 | below a directory a pattern is excluded exactly if it was above, or is the valid joined pattern of an "exclude" there; the last "build_file_name" counts |
| Exclusions.ConfiguredIs | vfsgazelle/walk/config.go:102-136 | the same for the walk, and a package is ignored exactly if its own build file says so |
| Exclusions.SplitCommaIs | vfsgazelle/internal/vfs/repo.go:461-462 | the valid names that a directive sets are the parts of its value between commas |
| Exclusions.ExcludedIff | vfsgazelle/internal/vfs/repo.go:250-286 | what the passes ask of a path is whether it is .git, ignored, or matched by a glob for directories or by a pattern in force there, files by paths and patterns only |
| Exclusions.SubIsJoin | vfsgazelle/internal/vfs/repo.go:321-323 | paths of places in the tree are their names from the root with slashes between |
| KeptTree.EnteredStays | vfsgazelle/internal/vfs/repo.go:288-406 | a directory stays if nothing excludes it or a directory above it, by patterns in force there |
| KeptTree.StaysIfEntered | vfsgazelle/internal/vfs/repo.go:288-406 | and only then |
| KeptTree.FileStaysIff | vfsgazelle/internal/vfs/repo.go:288-406 | a regular file in it stays exactly if it is the build file or nothing in force excludes it, with its content |
| KeptTree.BuildFailsIff | vfsgazelle/internal/vfs/repo.go:288-456 | building fails exactly if a directory that it comes to has a build file that cannot be read |
| KeptTree.BuildRepository | vfsgazelle/internal/vfs/repo.go:187-219 | the tables of a repository hold exactly the directories on whose path nothing is excluded, each listed with exactly what stays in it, and exactly the files that stay, with their contents |
| PrunedWalk.ConfigureForWalk | vfsgazelle/walk/config.go:102-136 | the directory's configuration is the inherited one, without "ignore", with its directives applied in order |
| PrunedWalk.LoadBuildFile | vfsgazelle/walk/walk.go:438-454 | the build file found through the snapshot's listing is that of the tree, or it is an error |
| PrunedWalk.WalkDir | vfsgazelle/walk/walk.go:228-303 | the callbacks of a walk through the snapshot are those of the tree it holds: subdirectories in order first, then the package with its build file, update flag and regular files; which these are in terms of the patterns, `CalledBack.VisitsAre` says |
| PrunedWalk.PruningPreservesWalk | vfsgazelle/internal/vfs/repo.go:288-406 | the walk of the whole tree succeeds exactly if, wherever it goes, the first valid build file name that is listed is that of a regular file; then walking the pruned tree calls back the same packages in the same order with the same build files, update flags and regular files; the walk may exclude more than the build does |
| PrunedWalk.DirectoryNamedBuildFails | vfsgazelle/walk/walk.go:438-454 | otherwise they can differ: an ignored directory with such a name makes the walk of the whole tree fail and that of the pruned one succeed |
| PrunedWalk.BuildAndWalk | vfsgazelle/walk/walk.go:199-226 | building the snapshot and walking it gives the walk of the pruned tree, and under that condition the walk of the repository on disk |
| CalledBack.VisitsAre | vfsgazelle/walk/walk.go:228-303 | exactly the directories on whose path nothing is excluded, by patterns in force there, are called back, each with its build file, its update flag and exactly the regular files that nothing in force excludes, sorted; subdirectories before their parent, siblings by name |
| CalledBack.WalkFailsIff | vfsgazelle/walk/walk.go:228-303 | the walk fails exactly if a directory that it comes to has a build file that cannot be read |
| CalledBack.WalkRepository | vfsgazelle/walk/walk.go:199-226 | building the snapshot of a repository and walking it: the same in terms of the repository on disk, if neither pass comes to a build file that cannot be read |
| OnceMemo.StepKeepsInv | walk/cache.go:34-58 | one atomic step of any caller keeps the protocol's invariant |
| OnceMemo.EntriesStay | walk/cache.go:34-76 | an entry in the map is never replaced, and once complete never changes |
| OnceMemo.SomeCallerGoesOn | repo/remote.go:588-621 | as long as a caller has not returned, some caller can take a step |
| OnceMemo.OncePerKey | walk/cache.go:34-58 | in every interleaving a key is loaded at most once, callers of one key that return a result return the same one, only a lookup that does not load returns without, all return in the end, and the number of steps is bounded |
| Paths.Prefixes | pathtools/path.go:164-192 | the prefixes of any path: the root, then up to the end of each element, repeated slashes skipped |
| Paths.PrefixesOfPath | pathtools/path.go:164-192 | of a clean relative path they are the paths of its first elements, from none to all |
| Paths.PrefixesOfAbsolute | pathtools/path.go:164-192 | of an absolute path they are those of the rest, each after the root's slash |
| PopulateCache.PrefixesAreOnTheWay | walk/cache.go:103-134 | what a request asks for are the directories on the way to its own |
| PopulateCache.AskedParentsFirst | walk/cache.go:103-134 | whatever a reader requests, and wherever requests stop, it asks for a directory after having asked for the parent |
| PopulateCache.LoadFindsParent | walk/dirinfo.go:55-65 | a load starts only when the parent's entry is complete, so looking the parent up cannot fail |
| PopulateCache.StepKeepsInv | walk/dirinfo.go:164-204 | one atomic step of a visitor, of a reader or of the waiting caller keeps the invariant |
| PopulateCache.NoDeadlock | walk/dirinfo.go:164-204 | until the wait is over some thread can take a step |
| PopulateCache.StepDecreases | walk/dirinfo.go:164-204 | every step decreases one measure |
| PopulateCache.PopulateCacheIsSafe | walk/dirinfo.go:164-204 | in every interleaving, whatever readers ask for meanwhile: at most six tokens are out, an entry exists only where the parent's is complete, there is no deadlock, and when the wait returns exactly the wanted directories have been visited and completed |
| ListEdit.OldStatementsKeepOrder | rule/rule.go:368-400 | of the old statements exactly those not deleted remain, in their order |
| ListEdit.InsertionsStandBefore | rule/rule.go:1055-1062 | the statements inserted at an index stand together, in the order they were marked, right before the statement formerly there |
| ListEdit.EditOrder | rule/rule.go:368-400 | the order of the result: insertions by index, those at one index as marked, each before the old statements from its index on and after the earlier ones, old statements as they were |
| ListEdit.EditDependsOnOrder | rule/rule.go:368-372 | only the order of insertions at the same index matters |
| ListEdit.NoMarksNoChange | rule/rule.go:368-400 | without marks the list stays as it is |
| ListEdit.EditMember | rule/rule.go:368-400 | a statement is in the result exactly if it was inserted or was there and not deleted |
| ListEdit.EditKeepsDistinct | rule/rule.go:368-400 | no statement gets into the list twice |
| StmtHandles.StableSort | rule/rule.go:369-371 | handles come out sorted by index, none lost or added, those with one index in their order |
| EditPass.MergePass | rule/rule.go:376-399 | one pass with three cursors gives the edited list, and every inserted or kept handle points at its own statement |
| FileSync.UpdateStmt | rule/rule.go:368-400 | the same for handles in any order |
| FileSync.File.Sync | rule/rule.go:306-366 | all marks of loads and rules are written back: the list is the edited one, loads before rules at one index; deleted handles are dropped; the others are unmarked and point at their own statements; with a macro, rules go into its body, which is never left empty, and the macro is added to the file once |
| FileSync.SyncedMember | rule/rule.go:368-400 | a statement is in the list afterwards exactly if it was to be inserted, or was there and was not to be deleted |
| FileSync.SyncedOrder | rule/rule.go:368-400 | inserted statements come by index, and at one index by handle |
| FileSync.LoadsBeforeRules | rule/rule.go:306-349 | so a load inserted at the place of a rule comes before it |
| FileSync.MacroBodyMember | rule/rule.go:351-361 | which statements the body of a macro has afterwards: `pass` exactly if there would be none, or if it was there and no rule was inserted |
| FileSync.SyncBody | rule/rule.go:351-361 | `pass` gives way to the first inserted rules and stands in for an empty body |
| FileSync.File.InsertRuleAt | rule/rule.go:1055-1062 | marking a rule keeps the file fit for synchronisation |
| FileSync.File.InsertRule | rule/rule.go:1045-1053 | the mark is at the end of the file, or of the macro's body |
| FileSync.File.InsertLoad | rule/rule.go:684-688 | marking a load keeps the file fit for synchronisation |
| FileSync.SyncIsIdempotent | rule/rule.go:304-366 | after a synchronisation another one changes nothing |
| BuildExprs.ExtractPlatformStringsExprs | rule/expr.go:221-298 | the operands of + are sorted into a list and at most one select of each kind, or the first error is returned |
| BuildExprs.MakePlatformStringsExpr | rule/expr.go:302-349 | list and selects are chained in order, on separate lines if there are several |
| BuildExprs.MadeIsSum | rule/expr.go:302-349 | the value is the sum of the list and the selects, in that order, with + throughout |
| BuildExprs.MadeThenExtracted | rule/expr.go:221-349 | what is made of parts is taken apart into the same parts, up to line breaks |
| BuildExprs.ExtractionKeepsIff | rule/expr.go:221-298 | if extraction succeeds, the parts are exactly the lists and selects among the operands, each in the slot of its kind; none is lost exactly if all operands are lists or calls |
| BuildExprs.AddOnlyRecognised | rule/expr.go:242-296 | the other operands make no difference to the parts or to the error |
| BuildExprs.OtherOperandsAreDropped | rule/expr.go:242-296 | any other operand added to a list leaves no trace |
| ExtractionErrors.ExtractedOkIff | rule/expr.go:221-298 | a value can be taken apart exactly if every call in it is a select whose first key other than the default names an OS, an arch or a platform, and there are no two lists and no two selects of one kind |
| ExtractionErrors.ReadOkIff | rule/merge.go:286-322 | the cases of a select can be read exactly if keys are strings, once each, and values are lists |
| ExtractionErrors.DictMergesIff | rule/merge.go:280-322 | a generated select can be merged exactly if the old one can be read |
| ExtractionErrors.MergesIff | rule/merge.go:125-181 | merging an attribute part by part succeeds exactly if the old value can be taken apart and its selects can be read |
| MergeLists.MergeList | rule/merge.go:215-271 | survivors of the destination, then what is missing of the source; none if both come to nothing |
| MergeLists.MergedStrings | rule/merge.go:201-213 | the merged list has exactly the source's strings and the kept ones of the destination |
| MergeLists.KeptStayInOrder | rule/merge.go:238-254 | no kept element is lost, and they keep their order |
| MergeLists.MergedOnce | rule/merge.go:215-271 | merging brings in no string twice |
| MergeLists.MergedListForm | rule/merge.go:264-271 | the merged list is broken into lines exactly if one of the two was or the old one has a marked element, and is not marked itself |
| MergeLists.MergeElemsIdempotentIff | rule/merge.go:215-271 | merging the same elements again changes nothing exactly if, of what the first merge brought in, elements that are no strings come last and are not marked |
| MergeLists.MergeListIdempotent | rule/merge.go:215-271 | for non-empty lists of plain strings it changes nothing, whatever they were merged into |
| MergeLists.CallMovesBack | rule/merge.go:256-262 | a call before a string in the source is not settled by one merge |
| MergeLists.MergeListIdempotentIff | rule/merge.go:215-271 | for a generated list it changes nothing exactly unless the list is empty and nothing of the destination is kept |
| MergeLists.EmptyListOscillates | rule/merge.go:218-226 | an empty source list is returned where there is no destination and dropped where it is the destination |
| MergeDicts.MergeDict | rule/merge.go:280-360 | malformed and repeated cases are errors; the result has the merged cases, keys sorted, the default last, even if empty; nothing if only an empty default is left |
| MergeDicts.MergedCaseStrings | rule/merge.go:323-343 | under each key: exactly the source's strings and the kept ones of the destination |
| MergeDicts.CasesInOrder | rule/merge.go:344-357 | the keys of a merged select are sorted, once each, and the default comes last |
| MergeDicts.SourceCaseStays | rule/merge.go:326-342 | no case of a generated select is lost by merging, an explicitly empty one included |
| MergeDicts.ReadOfDict | rule/merge.go:349-357 | the cases of an assembled select are read back unchanged |
| MergeDicts.MergedForm | rule/merge.go:344-359 | a merged select is broken into lines and not marked |
| MergeDicts.MergeDictIdempotent | rule/merge.go:280-360 | merging the same generated select again changes nothing, whatever it was merged into |
| MergeRules.MergeAttrValues | rule/merge.go:125-181 | the merged value, none if the attribute goes, or an error: kept assignments stay, a scalar is replaced, lists and selects are merged part by part; what comes of each attribute, `MergeOutcomes.RuleMerged` says |
| MergeRules.MergeRule | rule/merge.go:44-81 | a kept rule does not change at all; otherwise every attribute comes to its merged form in whatever order they are taken, kept, unmergeable and failing ones as they were |
| MergeOutcomes.RuleMerged | rule/merge.go:44-181 | what becomes of every attribute: a new one is taken over; one that may not be merged, or is kept, stays; a generated scalar replaces the old value; lists and selects hold, as operands and under each key, exactly the generated strings and the kept ones of the old value, or stay if they cannot be merged |
| MergedSelects.MergedShape | rule/merge.go:280-360 | merging leaves a select exactly if there is a generated one or a kept element; and one with keys exactly if there is a generated one or a kept element under a key |
| MergedSelects.MergedKindIff | rule/merge.go:183-197 | a select merged from ones of a kind is read as one of that kind exactly if it has keys, and otherwise as a platform select |
| MergedSelects.MovedKind | rule/merge.go:183-197 | whatever kind a merged select is read as, it is read as the same when the generated select of that kind has been merged into it |
| MergedSelects.LeavesAloneIff | rule/merge.go:280-360 | merging a generated select changes nothing exactly if its cases are all there, the elements of each case are kept or its own and all its own are there |
| MergeIdempotence.PartsAgainIff | rule/merge.go:183-197 | for any old value: merging the parts again gives the same value exactly if the selects are read back in the same order and each is left alone in its slot, or cannot be read back |
| MergeIdempotence.StepTwiceIff | rule/merge.go:125-181 | for any attribute: exactly when merging it again changes nothing |
| MergeIdempotence.GeneratedStays | rule/merge.go:125-181 | a generated value is never lost by merging, unless the old value alone is marked |
| MergeIdempotence.MergeRulesIdempotentIff | rule/merge.go:44-81 | merging the same generated rule again changes nothing, exactly if every mergeable attribute of the old rule is kept, has a marked value that is not generated, a scalar, an unrecognised value, or selects that settle |
| MergeIdempotence.MergeRulesSettle | rule/merge.go:44-81 | into whatever rule a generated one is merged, from the second merge on nothing changes |
| MergeSwaps.SelectsSettleIff | rule/expr.go:262-290 | for selects with keys of one kind each: they settle unless the OS select is left with a kept default only, an arch select with keys is left, and no platform select |
| MergeSwaps.SwappedValue | rule/merge.go:125-181 | in that case the second merge makes the OS select come after the arch select, and changes nothing else |
| MergeSwaps.SettlesIff | rule/merge.go:125-181 | the same for attributes |
| MergeSwaps.MergeRulesNoSwapIff | rule/merge.go:44-81 | and for rules: a condition on the generated and the old rule that is necessary and sufficient for the second merge to change nothing |
| MergeSwaps.BareDefaultSwaps | rule/expr.go:262-290 | an input that is not settled by one merge |
| MergeLosses.OnlyRecognisedMatter | rule/merge.go:125-181 | merging gives the same for old values with the same lists and calls, whatever else is added to them |
| MergeLosses.OthersAreLostIff | rule/merge.go:125-181 | the merged value consists of lists and selects, so the other operands of the old one are all there exactly if there are none |
| MergeLosses.ConstantIsLost | rule/merge.go:125-181 | a constant added to a list is lost, whatever is merged in |
| MergeLosses.DeletedIff | rule/merge.go:125-181 | an attribute that is not generated goes exactly if its assignment is not kept and its value is marked, a scalar, or has no kept element in its lists and selects |
| MergeLosses.UnrecognisedIsDeleted | rule/merge.go:125-181 | a value without any recognised operand, such as a bare dict, is deleted |
| MergeLosses.MarkedValueIsDeleted | rule/merge.go:125-134 | a mark on the value of an attribute, and not on its assignment, deletes it |
| MergeSwaps.KeptDefaultChangesKind | rule/expr.go:262-290 | a kept string under the default of an OS select can turn it into a select of another kind, which alone changes nothing when it is merged again |
| Labels.ParseWellFormed | label/label.go:88-156 | every label the parser returns is well formed |
| Labels.CharsIff | label/label.go:71-84 | the characters of repository, package and target names, by their codes |
| Labels.ParseForms | label/label.go:86-156 | what labels mean, written out: with all parts; without the name, which is the last element of the package; relative; a repository alone |
| Labels.PrintThenParse | label/label.go:158-179 | a well-formed label is parsed back from its print exactly if its name is not lost |
| Labels.RoundTrip | label/label.go:88-179 | for every string the parser accepts, parsing the print of the label gives the label, exactly unless package is empty and name is "." |
| Labels.StringInjective | label/label.go:158-179 | different well-formed labels are printed differently |
| Labels.NameLostIsParsed | label/label.go:88-179 | the excepted form is accepted by the parser, and its print is not |

## Left out

- Versions of rules_go are reduced to whether they are older than 0.23.0; parsing and comparing version numbers is left out.
- The library sorts, `path.Clean`, glob matching, digests, regular expressions, the build-file parser and formatter and `go/parser` are parameters or taken at their documented meaning; paths are taken to be clean.
- One constraint prefix is used per builder of platform strings, as its callers do.
- `PlatformStrings.Flat`, `Map`, `MapSlice`, `Each` and the rendering of the four sets as select expressions are not modelled.
- RuleIndexes.RuleIndex.AddRule: the resolver of a rule is asked once; that asking again in `Finish` would give the same language is taken for granted.
- RuleIndexes.FinishWhereTame: that no cycle is reached is sufficient, not necessary. On a cycle the tables depend on the order in which rules are added and on which imports the rules share, as the circles show, so no condition on the graph of embeds alone is both; for other graphs with cycles only soundness and the embedded labels are exact (`RuleIndexes.FinishOnAnyGraph`).
- MatchSelection.ResolveWithIndexGo: in repository mode, where a vendored match counts too, only that what is found counts, and when nothing is found, is claimed, because depth and the preference for generated protos together are not an order; the importing label is absolute.
- ParsedCache.CacheBuilder.Parse: errors carry no text beyond what is needed to tell them apart; `CheckPath` and `GetPath` skip the content hash by design and enter only into the frozen lookup.
- Writing the persisted cache and snapshot to disk and reading them back, with compression and JSON, is taken to be the identity; a future is modelled by what it comes to.
- `Patch`, which updates a snapshot for changed files, and the update command are not part of this model.
- TreeBuild.BuildTree: reads that fail, symbolic links and files named by `directive_file` directives are left out; entries that are neither files nor directories are passed over.
- PrunedWalk.WalkDir: configuration of other languages, generated files and the list of subdirectories handed to the callback are left out; the latter may differ between pruned and whole trees by directories that exclude themselves.
- PopulateCache.PopulateCacheIsSafe: what a load reads and returns is left out; only when it may start and that it completes is modelled. Requests of readers are for relative paths.
- Classic `walk.Walk2` callbacks are not modelled.
- FileSync.File.Sync: indices to insert at are not negative, and no handle is marked both inserted and deleted before one synchronisation; updating the arguments of a rule or load from its attributes, and comments, are left out.
- `SortMacro` and `SyncMacroFile` are not modelled.
- BuildExprs.ExtractPlatformStringsExprs: which label a select key is, is a parameter here; `Labels` models the parser.
- MergeRules.MergeRule: values that implement their own merging, and the mode that removes unneeded "keep" comments, which is off by default, are left out; expressions are values, so a list shared between source and destination after a merge is not modelled as shared.
- `SquashRules`, `FlattenExpr` and `MapExprStrings` are not modelled.
- Logging, flags, file system access, subprocesses and the network are not modelled.
