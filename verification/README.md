# Verified models of EdgeDB components

Dafny models of the parts of the EdgeDB repository whose correctness is not visible from one function body, with
proofs of what they promise.  `dafny verify dfyconfig.toml` checks the whole project.

**The query-text store of edb_stat_statements.**  Backends append query texts to one file under a shared lock,
publish entries under the exclusive lock, rewrite the file in place, and readers load it with no lock at all.

- `QueryTexts.dfy`: the file as bytes, and how an entry refers to it.
- `TextProtocol.dfy`: the step system.  Any number of processes store, collect, reset and read; a collection or a
  reset is several steps, an unlocked load may see any of them, and file operations may fail.
- `TextInvariant.dfy`: the invariant of all interleavings, and the theorems it is for.
- `TextHistory.dfy`: what a process ends up with, in terms of the steps it took: the entry it makes and the texts it
  reads.
- `TextProgress.dfy`: what a process can always get done from any state of the invariant, with and without failures.
- `TextGc.dfy`, `TextGcReachable.dfy`: one garbage collection as a sequential operation, its anti-thrash arithmetic,
  its effect on reachable stores, and the proof that the steps of a collection among other processes amount to it.
- `Eviction.dfy`, `DumpLoad.dfy`, `QueryNormalization.dfy`, `Counters.dfy`: eviction, dump and load, replacing
  constants by parameter symbols, and the running statistics.

**SDL linearization.**  `Digraph.dfy` has the graph notions; `Topological.dfy` and `DependencySort.dfy` the
depth-first search with strong, weak and loop-control edges and its exception swallowing; `Inheritance.dfy` the
propagation of pointers to derived types; `Ancestors.dfy` the memoized closure.

**GROUP desugaring.**  `Aliases.dfy`, `GroupDesugar.dfy` and `GroupMeaning.dfy`: fresh names, the rewriting of BY, and
exactly when it keeps the meaning of the query.

**Smaller parts.**  `Levenshtein.dfy`, `Debounce.dfy`, `Lru.dfy`, `DollarQuote.dfy`; `Collections.dfy` and
`Results.dfy` hold what the models share.

## Where the code and what it promises differ

- A dump counts entries in its header that it then leaves out, so after a restart the global statistics are lost
  exactly when some text could not be fetched (`DumpLoad.Restart`).
- A zero duration that comes first after a reset is forgotten by the minimum (`Counters.ExactUnlessLeadingZero`).
- The waiting time of `debounce` is not limited by `max_wait` when twice the delay exceeds it (`Debounce.WaitBound`,
  `Debounce.LateEvent`).
- A text that ends with the delimiter minus its last dollar does not survive dollar quoting (`DollarQuote.ReadsBack`).
- A GROUP query that uses names with a tilde can be captured by generated aliases
  (`GroupMeaning.MeaningKeptIffNoCapture`).

## Model

| member | source | states |
|---|---|---|
| TextInvariant.InvKept | edb_stat_statements/edb_stat_statements.c:22-34 | every enabled step of every process keeps the protocol invariant: locks agree with program points, live texts and unpublished claims are disjoint and below the extent, readers and the collector are consistent with the file |
| TextInvariant.InvReachable | edb_stat_statements/edb_stat_statements.c:22-34 | the invariant holds in every state of every interleaving |
| TextInvariant.EntriesKeepTheirTexts | edb_stat_statements/edb_stat_statements.c:1715-1811 | in every reachable state in which nobody rewrites the file, an entry with a valid length points at exactly the tag, extras, query and NUL it was created with and reads them back, and an entry without one reads nothing |
| TextInvariant.ReaderSeesTrueTexts | edb_stat_statements/edb_stat_statements.c:2040-2140 | a reader that sampled, loaded without a lock and validated (or reloaded) reads the true tag, extras and query of every entry, whatever it overlapped |
| TextInvariant.LockMeansQuiet | edb_stat_statements/edb_stat_statements.c:22-34 | holding the lock in any mode excludes a rewrite by another process |
| TextInvariant.WritersCounted | edb_stat_statements/edb_stat_statements.c:2544-2550 | n_writers is the number of processes inside qtext_store, and zero while the file is rewritten |
| TextInvariant.VersionNeverGoesBack | edb_stat_statements/edb_stat_statements.c:2899-2920 | outside rewrites the pair (gc_count, extent) never decreases, and a rewrite ends with a larger gc_count |
| TextInvariant.NoTextIsLost | edb_stat_statements/edb_stat_statements.c:2838-2873 | in a run without a failed collection no entry in the table loses its text |
| TextInvariant.ReserveOk | edb_stat_statements/edb_stat_statements.c:2544-2552 | reserving space gives a claim disjoint from every text and every other claim |
| TextInvariant.WriteOk | edb_stat_statements/edb_stat_statements.c:2578-2588 | writing into a claim extends the stored prefix and disturbs no other text or claim |
| TextInvariant.PublishOk | edb_stat_statements/edb_stat_statements.c:1789-1807 | the store stays consistent when an entry is made after the gc_count re-check, whatever was evicted for it |
| TextInvariant.GcCopyOk | edb_stat_statements/edb_stat_statements.c:2844-2873 | a copy step keeps what was copied and what is still to be copied |
| TextInvariant.BumpOk | edb_stat_statements/edb_stat_statements.c:2899-2920 | advancing gc_count last makes every remembered older version stale |
| TextHistory.LocksFollowCalls | edb_stat_statements/edb_stat_statements.c:22-34 | in every run, a process holds the lock in the mode of its last lock call and in no other, and the exclusive lock is held by one process alone |
| TextHistory.PublishEnters | edb_stat_statements/edb_stat_statements.c:1715-1807 | in every run, when a process makes an entry, it is for the key it last looked up, with the text of that lookup or of its last normalization, and that text can be read back; an entry that is there already and all others that are not evicted stay as they are |
| TextHistory.LookedUpRightly | edb_stat_statements/edb_stat_statements.c:1715-1769 | in every run, a process works on the key and text it was asked for, counts a call only for a key that has an entry, and stores a text only if the key had none while it kept the lock |
| TextHistory.ReaderGetsTexts | edb_stat_statements/edb_stat_statements.c:2040-2140 | in every run, a reader that has not failed to reload the file since it took the lock has an image and reads from it the text of every entry that has one |
| TextProgress.CallIsServed | edb_stat_statements/edb_stat_statements.c:1715-1812 | from every state of the invariant, a process that finds the lock free can serve a call: a known key is counted and nothing is stored; otherwise the entry is made, with the text as given or as normalized |
| TextProgress.StoreCompletes | edb_stat_statements/edb_stat_statements.c:1773-1807 | from whatever point, a storing process can make its entry and finish without a failure, writing its text again exactly if the first write failed or the file was rewritten since |
| TextProgress.CallIsGivenUp | edb_stat_statements/edb_stat_statements.c:1730-1750 | a process that finds no entry may give up, and then nothing has changed |
| TextProgress.FailedWrite | edb_stat_statements/edb_stat_statements.c:1796-1803 | a write that fails under the shared lock is made up for under the exclusive one; if that fails, nothing is entered |
| TextProgress.ReadCompletes | edb_stat_statements/edb_stat_statements.c:2040-2088 | from whatever point, a reader can scan the table with an image that has the text of every entry |
| TextProgress.UndisturbedRead | edb_stat_statements/edb_stat_statements.c:2040-2088 | a reader that begins while nobody is writing, and is not disturbed, reads the file once, without the lock, and accepts it |
| TextProgress.StaleRead | edb_stat_statements/edb_stat_statements.c:2673-2703 | a reader whose file was unlinked under it may read anything instead |
| TextProgress.SkippedRead | edb_stat_statements/edb_stat_statements.c:2051-2053 | a reader may skip the load without the lock, and then reloads the file under it |
| TextProgress.FailedReads | edb_stat_statements/edb_stat_statements.c:2078-2087 | a reader that cannot load the file tries again under the lock, and reads no texts if that fails too |
| TextProgress.CollectionCompletes | edb_stat_statements/edb_stat_statements.c:2792-2920 | a process that may collect can do so, and ends with gc_count advanced by one and the same entries, each of which has its text if it had it before |
| TextProgress.CollectionFails | edb_stat_statements/edb_stat_statements.c:2924-2973 | a collection can fail at any point after loading; then every entry has lost its text, the extent is zero, gc_count has advanced, and the file is empty, gone or as it was with what was still buffered |
| TextProgress.LoadFails | edb_stat_statements/edb_stat_statements.c:2816-2820 | so can loading the file |
| TextProgress.Truncates | edb_stat_statements/edb_stat_statements.c:2875-2885 | the new file is cut or padded to the length of the texts |
| TextProgress.ResetCompletes | edb_stat_statements/edb_stat_statements.c:3014-3119 | a reset removes the given entries and no others; exactly if none is left, the file starts afresh, the extent is zero and gc_count advances |
| TextProgress.SharedLockIsShared | edb_stat_statements/edb_stat_statements.c:22-34 | the shared lock is waited for only while a process holds the exclusive one |
| QueryTexts.FetchOfImage | edb_stat_statements/edb_stat_statements.c:2115-2140 | fetching where an image is stored gives the tag, extras and query bytes, and splitting them by the lengths gives tag, extras and query |
| QueryTexts.FetchIff | edb_stat_statements/edb_stat_statements.c:2720-2736 | bytes are fetched exactly if they have the length of the entry and are there with their NUL |
| QueryTexts.PWriteKeeps | edb_stat_statements/edb_stat_statements.c:2578-2588 | a positioned write leaves every range it does not touch as it was |
| TextGc.SharedTexts.GcQtexts | edb_stat_statements/edb_stat_statements.c:2743-2974 | does nothing exactly if the file is below 512 bytes per possible entry or below twice the mean times that number, and that is so afterwards in every case; otherwise collects, unless the file is missing or an operation fails, and then drops all texts; gc_count grows by one exactly when something was done; the mean after a collection is the extent divided by the number of texts kept |
| TextGc.SharedTexts.CopyTexts | edb_stat_statements/edb_stat_statements.c:2838-2873 | the copy loop, in any order of the table, leaves a compacted table and file and counts the texts copied; it fails exactly if the failing write comes before all readable texts are copied |
| TextGc.SharedTexts.Fail | edb_stat_statements/edb_stat_statements.c:2924-2973 | drops every text; the file is empty if it can be created anew, else gone if it could be unlinked, else as it was |
| TextGc.CompactedKeepsTexts | edb_stat_statements/edb_stat_statements.c:2838-2873 | every entry reads the same bytes with the same lengths after a collection; an unreadable one is marked dropped |
| TextGc.CompactedIsContiguous | edb_stat_statements/edb_stat_statements.c:2871-2873 | every byte of the collected file belongs to exactly one entry |
| TextGc.CompactedDoesNotGrow | edb_stat_statements/edb_stat_statements.c:2822-2828 | the collected file is no longer than the old one when no two texts share a byte |
| TextGc.NoThrashing | edb_stat_statements/edb_stat_statements.c:2743-2774 | with the mean recomputed over at most pgss_max texts, no further collection is due, however long the texts are |
| TextGcReachable.ReachableCollection | edb_stat_statements/edb_stat_statements.c:2822-2873 | collecting any reachable store needs no more room than the file has and keeps every text as it was created |
| TextGcReachable.ConcurrentCollection | edb_stat_statements/edb_stat_statements.c:2792-2920 | whatever other processes do meanwhile, the steps of a collection that does not fail leave a compacted table and file: contiguous, no longer than before, with every text as it was created and the extent at its end |
| TextGcReachable.StepCollects | edb_stat_statements/edb_stat_statements.c:2822-2900 | each step of the collecting process goes on with the same compaction |
| DumpLoad.Dump | edb_stat_statements/edb_stat_statements.c:1076-1109 | one record per fetchable entry, with its text; the header counts all entries |
| DumpLoad.HeaderCount | edb_stat_statements/edb_stat_statements.c:1080-1103 | the header count equals the number of records exactly when every text can be fetched |
| DumpLoad.DroppedTextMiscounts | edb_stat_statements/edb_stat_statements.c:1099-1100 | an entry that lost its text makes the header count too many |
| DumpLoad.SharedStats.Load | edb_stat_statements/edb_stat_statements.c:924-988 | a data error exactly for another header, version or a bogus encoding among the records read; otherwise a read error exactly when there are fewer records than the header says; on success the global statistics are restored; without eviction every record with a call is in the table with its text, the file being as long as these texts together |
| DumpLoad.SharedStats.LoadRecord | edb_stat_statements/edb_stat_statements.c:968-983 | appends the text and enters the entry with the saved statistics, whatever is evicted for it; other entries change at most in usage, and below the limit not at all |
| DumpLoad.DumpThenLoad | edb_stat_statements/edb_stat_statements.c:934-984 | a key is in the loaded table exactly when its entry had a call and a fetchable text; statistics, lengths and bytes are the same |
| DumpLoad.ExtentIsTotal | edb_stat_statements/edb_stat_statements.c:968-971 | the extent after a load is the sum of the texts of the loaded entries |
| DumpLoad.Restart | edb_stat_statements/edb_stat_statements.c:924-988 | shutdown and startup: entries survive as above, the extent is the sum of their texts, and the global statistics survive exactly when every entry had its text |
| Eviction.Statements.EntryDealloc | edb_stat_statements/edb_stat_statements.c:2440-2513 | removes all entries up to ten, else ten of them below 200, else one in twenty rounded down, none used more (after decay) than one that stays; the others only decay, by 0.99 or by 0.5 if they have no call; records the median usage and the mean text length |
| Eviction.Statements.EvictLeastUsed | edb_stat_statements/edb_stat_statements.c:2487-2505 | the part after the scan, with the same share, for any order that qsort may give to equal usages |
| Eviction.Statements.Scan | edb_stat_statements/edb_stat_statements.c:2470-2485 | decays every entry once and averages the lengths of the texts that are not dropped |
| Eviction.Statements.EntryAlloc | edb_stat_statements/edb_stat_statements.c:2377-2416 | the table has at most pgss_max entries and the wanted key afterwards; making space ends; other entries change at most in usage; below the limit nothing is evicted, and a table that is just full loses one share of its least used entries; a new entry has no counts and usage 1, or the median if sticky |
| Eviction.Statements.MakeSpace | edb_stat_statements/edb_stat_statements.c:2384-2386 | evicts until there is room: not at all below the limit, once if the table is just full |
| Eviction.DecayOf | edb_stat_statements/edb_stat_statements.c:2470-2477 | every entry keeps its statistics; usage is multiplied by 0.99, or by 0.5 without a call |
| Eviction.MedianOf | edb_stat_statements/edb_stat_statements.c:2490-2492 | the middle of the sorted entries has at most half of them below it and fewer than half above |
| Eviction.VictimsUsedLess | edb_stat_statements/edb_stat_statements.c:2498-2505 | removing the first entries of the sorted order removes the least used ones and no others |
| QueryNormalization.GenerateNormalizedQuery | edb_stat_statements/edb_stat_statements.c:3143-3221 | the result is the query with exactly the constants replaced by a dollar sign and their numbers in decimal, never passes the buffer, and every copied chunk has a non-negative length |
| QueryNormalization.SymbolReadsBack | edb_stat_statements/edb_stat_statements.c:3197-3199 | the symbol for a number is the one string of a dollar sign and decimal digits without a leading zero that reads as the number |
| QueryNormalization.SymbolsDiffer | edb_stat_statements/edb_stat_statements.c:3197-3199 | different constants have different symbols, all above the highest parameter of the query |
| QueryNormalization.NormalizedIsUnique | edb_stat_statements/edb_stat_statements.c:3175-3204 | the constant locations determine the result |
| QueryNormalization.SimilarQueriesNormalizeAlike | edb_stat_statements/edb_stat_statements.c:3124-3130 | queries that differ only in their constants have the same normalized text |
| QueryNormalization.SymbolBound | edb_stat_statements/edb_stat_statements.c:3163-3170 | a parameter symbol is at most 11 bytes up to INT_MAX |
| Counters.KindTimes.Add | edb_stat_statements/edb_stat_statements.c:1829-1868 | keeps calls, total, mean, sum of squared deviations and the tracked minimum and maximum correct for the whole history |
| Counters.KindTimes.UpdateMean | edb_stat_statements/edb_stat_statements.c:1829-1849 | counts the call and keeps total, mean and sum of squared deviations exact |
| Counters.KindTimes.UpdateMinMax | edb_stat_statements/edb_stat_statements.c:1832-1867 | keeps minimum and maximum tracked |
| Counters.KindTimes.ResetMinMax | edb_stat_statements/edb_stat_statements.c:2979-2984 | forgets minimum and maximum only |
| Counters.EntryCounters.Store | edb_stat_statements/edb_stat_statements.c:1825-1868 | updates one kind, leaves the other unchanged, and replaces the usage of a sticky entry |
| Counters.WelfordStep | edb_stat_statements/edb_stat_statements.c:1840-1849 | after the update, mean times calls is the total and the sum of squared deviations from the new mean is exact |
| Counters.ExactUnlessLeadingZero | edb_stat_statements/edb_stat_statements.c:1851-1868 | minimum and maximum since the last reset are exact if and only if not (the first time is zero, a positive one follows and no zero comes after it) |
| Counters.ExactWhenPositive | edb_stat_statements/edb_stat_statements.c:1851-1868 | with positive times they are exact, and two zeros mean no observation |
| Counters.LeadingZeroIsLost | edb_stat_statements/edb_stat_statements.c:1855-1860 | times 0 and 5 are reported with minimum 5 |
| Topological.Visitor.Visit | edb/common/topological.py:143-188 | a visit puts the stack back; it fails without a weak link exactly on a cycle of strong and control edges, reporting the stack without the item, which leads to the item and around the cycle; an error from a weak traversal is swallowed only at its root |
| Topological.Visitor.Enter | edb/common/topological.py:159-188 | the stack, the try block and the swallowing of errors at a weak root |
| Topological.Visitor.Follow | edb/common/topological.py:165-179 | weak links, then strong ones, then loop control; the item is ordered after what it needs |
| Topological.WeakSuffix | edb/common/topological.py:159-188 | the weakly visited items are a suffix of the visiting stack, so exactly one means the top is the weak root |
| DependencySort.Link | edb/common/topological.py:97-136 | fails exactly on an unresolved reference that is not allowed; otherwise the adjacency lists hold the resolved references |
| DependencySort.SortEx | edb/common/topological.py:91-193 | fails with a cycle exactly when deps, merge and loop control together contain one; otherwise every key occurs once, after its deps and merges, and after each weak dependency that cannot reach a cycle |
| DependencySort.AcyclicHonoursAll | edb/common/topological.py:59-63 | when the combined graph has no cycle, every weak dependency is honoured |
| DependencySort.VisitAll | edb/common/topological.py:190-193 | visiting all keys orders all of them or finds a strong cycle |
| DependencySort.Sort | edb/common/topological.py:196-202 | the items in that order, with the same conditions |
| Inheritance.MergeItems | edb/edgeql/declarative.py:505-543 | the loop over the pointers of the parent, in any order, gives the merged dictionary |
| Inheritance.MergeLookup | edb/edgeql/declarative.py:505-543 | at every depth what the item declares wins and what only the parent declares is inherited |
| Inheritance.MergedKind | edb/edgeql/declarative.py:519-534 | a pointer that the parent has is a property or a link afterwards, a property exactly if the one that wins was |
| Inheritance.MergeBases | edb/common/topological.py:225-231 | merging finished bases one after the other finishes the item |
| Inheritance.Normalize | edb/common/topological.py:218-233 | succeeds exactly when sorting does; no base is missing when it is looked up; every source ends with exactly its own pointers and those of its transitive bases, recursively, and keeps its own targets |
| Ancestors.AncestorMemo.GetAncestors | edb/edgeql/declarative.py:784-810 | with a memo shared by any calls: fails exactly when a cycle can be reached, otherwise returns the transitive closure; recursion ends and known values stay |
| Ancestors.AncestorMemo.FromParents | edb/edgeql/declarative.py:801-808 | the same for the recursive step over the parents |
| Ancestors.AncestorMemo.ComputeAll | edb/edgeql/declarative.py:420-423 | computes all ancestors, or fails exactly when some type reaches a cycle |
| Ancestors.ClosureStep | edb/edgeql/declarative.py:801-806 | the ancestors are the parents and their ancestors |
| Aliases.AliasGenerator.Get | edb/common/compiler.py:167-178 | cleaned hint, tilde and the next number for it; no alias is ever handed out twice |
| Aliases.CleanHintOk | edb/common/compiler.py:168-173 | the cleaned hint is the hint, or v for an empty one, without the tilde and digits that it may end with, and nothing else |
| Aliases.AliasGenerator.NextVal | edb/common/compiler.py:162-164 | counts each name separately |
| Aliases.AliasInjective | edb/common/compiler.py:171-176 | the hint and the number can be read off an alias |
| GroupDesugar.GroupingSetsRenamed | edb/edgeql/desugar_group.py:129-145 | renaming the leaves of BY renames the grouping sets and changes nothing else, for every nesting of sets, cube and rollup |
| GroupDesugar.CubeIsAllSelections | edb/tools/toy_eval_model.py:623-642 | a cube stands for exactly the selections of its elements, one set for each |
| GroupDesugar.RollupIsPrefixes | edb/tools/toy_eval_model.py:643-647 | a rollup stands for the initial parts of its elements, from the empty one to all |
| GroupDesugar.SetsAreUnion | edb/tools/toy_eval_model.py:635-636 | grouping sets stand for the sets of their members |
| GroupDesugar.GroupingSetsAreChoices | edb/tools/toy_eval_model.py:674-687 | BY stands for one set of each of its elements, chosen in all ways and joined |
| GroupDesugar.CrossSize | edb/tools/toy_eval_model.py:684-687 | combining two lists of sets gives as many sets as there are pairs |
| GroupDesugar.Rewriter.RewriteLeaf | edb/edgeql/desugar_group.py:100-121 | a pointer gets the alias of its name, made and numbered on first use; fails exactly on a second pointer type for a name |
| GroupDesugar.Rewriter.RewriteAtom | edb/edgeql/desugar_group.py:100-127 | the same through parenthesized lists |
| GroupDesugar.Rewriter.Rewrite | edb/edgeql/desugar_group.py:129-141 | the same through grouping elements |
| GroupMeaning.Desugar | edb/edgeql/desugar_group.py:93-196 | rejects exactly mixed pointer types, and names bound again, reporting the first; otherwise generated bindings come first, BY has aliases for pointers, numbered in the order of first use, all generated names are new and different, and the key object has exactly the bindings that BY uses, in their order |
| GroupMeaning.Assemble | edb/edgeql/desugar_group.py:162-182 | the USING list, the key object and the two further aliases |
| GroupMeaning.CollectGroupingAtoms | edb/edgeql/desugar_group.py:61-90 | exactly the names that occur in BY |
| GroupMeaning.MeaningKeptIffNoCapture | edb/edgeql/desugar_group.py:93-196 | in every row and for every interpretation the grouping sets of values, BY leaves and USING variables are the same, if and only if no generated alias captures a name of the query |
| GroupMeaning.PlainNamesAreSafe | edb/edgeql/desugar_group.py:93-196 | a query without tildes in its names keeps its meaning |
| GroupMeaning.CaptureExample | edb/edgeql/desugar_group.py:151-164 | with a new generator, a USING variable named like the first alias of a pointer in BY is accepted, and the rewritten query does not mean the same |
| GroupMeaning.RenamedNames | edb/edgeql/desugar_group.py:145-166 | after the rewriting BY holds only names: its own and the aliases of its pointers |
| Levenshtein.Distance | edb/common/levenshtein.py:23-42 | the minimal cost over all edit scripts |
| Levenshtein.NextRow | edb/common/levenshtein.py:35-40 | a row of distances of prefixes gives the next one |
| Levenshtein.Cell | edb/common/levenshtein.py:38-40 | the minimum of the three neighbours is the distance of the extended prefixes |
| Levenshtein.Symmetric | edb/common/levenshtein.py:28-30 | the distance is symmetric, so swapping the arguments is harmless |
| Levenshtein.ZeroOnlyIfEqual | edb/common/levenshtein.py:23-42 | zero exactly for equal strings |
| Levenshtein.Triangle | edb/common/levenshtein.py:23-42 | the triangle inequality |
| Debounce.Debouncer.Loop | edb/common/asyncutil.py:106-149 | after every turn the state is that of the run so far: nothing received is lost, every output is proper, something waits exactly while a target lies ahead, and everything that waits goes out exactly when it is due |
| Debounce.Debouncer.Step | edb/common/asyncutil.py:113-149 | one turn does what the step function says, which the run theorems below are about |
| Debounce.NothingLost | edb/common/asyncutil.py:106-149 | the outputs and the current batch together are the inputs, in order |
| Debounce.RunOk | edb/common/asyncutil.py:106-149 | outputs are not empty, not too long and far enough apart unless full; something waits exactly while a target is set that lies ahead and within its bounds |
| Debounce.SentExactlyWhenDue | edb/common/asyncutil.py:106-149 | from inputs and outputs alone: after each input all that is waiting is sent if the batch is full, the delay has passed since the last event, it is a single event that came at least the delay after the last signal, or several wait and max_wait has passed since the last signal; otherwise nothing is sent |
| Debounce.SentAtOnce | edb/common/asyncutil.py:87-91 | an event after a quiet period is sent at once |
| Debounce.WaitBound | edb/common/asyncutil.py:89-91 | the wait is limited by max_wait in every run if and only if twice the delay fits in it, there is no delay, or batches have at most one event |
| Debounce.LateEvent | edb/common/asyncutil.py:123-127 | an event that is given a target beyond max_wait, with clock readings from zero on |
| Lru.LRUMapping.GetItem | edb/common/lru.py:58-61 | returns the value last set, or fails; the mapping stays that of its history, in order of last use |
| Lru.LRUMapping.SetItem | edb/common/lru.py:63-70 | the key is present with the value; the mapping stays that of its history, within maxsize and in order of last use |
| Lru.LRUMapping.DelItem | edb/common/lru.py:72-73 | the key is gone, with failure if it was absent; the mapping stays that of its history |
| Lru.LRUMapping.Create | edb/common/lru.py:49-56 | refuses sizes below one |
| Lru.RunIsRecent | edb/common/lru.py:49-73 | after every run at most maxsize keys, in order of last use, with the values last set |
| Lru.LosesOnlyLeastRecent | edb/common/lru.py:68-70 | a key is lost only by deletion, or as the least recently used one of a full cache |
| Lru.GainsOnlySet | edb/common/lru.py:63-70 | a key is added only by setting it, and is then there with the value |
| Lru.Inclusion | edb/common/lru.py:49-73 | fed the same operations, a smaller cache is an order-preserving part of a larger one |
| DollarQuote.DollarQuoteLiteral | edb/edgeql/quote.py:60-71 | ends, the counter staying within eleven of a power of 16 in the length of the text; the result is the first delimiter in turn that is absent from the text, its tag empty or starting with a letter, at most one longer than the text |
| DollarQuote.TakenIsBelowLimit | edb/edgeql/quote.py:64-69 | a delimiter that occurs in the text belongs to a counter value below 16 to the length of the text less two |
| DollarQuote.ReadsBack | edb/edgeql/quote.py:71 | a reader that stops at the first closing delimiter recovers the text if and only if the text does not end with the delimiter minus its last dollar |
| DollarQuote.TrailingDollarIsLost | edb/edgeql/quote.py:60-71 | the text `a$` does not survive |
| DollarQuote.DelimiterInjective | edb/edgeql/quote.py:68 | different counter values give different delimiters |

## Left out

- edb_stat_statements: hooks, GUCs, shared-memory setup, tuple building, JSON callbacks and the scanner behind
  fill_in_constant_lengths; constant lengths are inputs.
- Integer widths in edb_stat_statements: offsets, lengths and counters are unbounded, so the size limit of the file
  (lines 2554-2564) is one of the ways in which a write may fail, and int overflow of summed lengths is not modelled.
- Entry fields `id`, `stmt_type` and timestamps; they are only copied.
- Crashes of a process between two of its steps.
- Double rounding: usage and times are real numbers.
- TextGc.SharedTexts.GcQtexts: the file is visible only before and after the operation; intermediate states are the
  subject of TextProtocol.
- TextGc.CompactedDoesNotGrow: needs that no two texts share a byte, which TextGcReachable proves of reachable stores.
- DumpLoad.SharedStats.Load: takes the file as a header and a list of records, so corruption within a record is not
  modelled.
- QueryNormalization.GenerateNormalizedQuery: needs sorted, non-overlapping constants of length at least one, which
  fill_in_constant_lengths provides, and parameter numbers up to INT_MAX.
- Counters.KindTimes.Add: needs durations that are not negative.
- Inheritance.MergeItems: nested pointer dictionaries are values; pointers are plain ones, and the schema classes that
  may stand in for traced sources are not modelled.
- Topological.Visitor.Visit: the wording of the error message.
- GroupDesugar.GroupingSetsRenamed: the sets of a cube come in another order than in the toy evaluator.
- GroupMeaning.MeaningKeptIffNoCapture: an expression other than a path is known only by the names in it, and may
  depend on the row in any way.
- Aliases.AliasGenerator.Get: digits are the ASCII ones, and a hint does not end with a line break.
- Debounce: the event loop; the inputs are events and timeouts with clock readings from zero on that do not go back.
- try_group_rewrite, the rest of declarative.py, tracer.py, code generators, parsers, asyncio plumbing, and the
  simpler utilities of edb/common: they would need code that is elsewhere, or add only easy members.
