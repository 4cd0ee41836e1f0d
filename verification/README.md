# scry2 in Dafny

scry2 turns the facts of many compilation units (CUs) into one sorted, packed index file and
answers queries over it by binary search. Its source claims strong equivalences: a trigram
index that returns the same set as a linear scan, merges that are byte-identical to a clean
build, a snapshot protocol that loses nothing across crashes, and rows that do not depend on
the order in which facts arrive. This project models the code behind those claims and proves
them for all inputs, all interleavings and all histories, or states exactly when they hold.

`dafny verify dfyconfig.toml` checks the whole project.

## What is modelled

* **Substring search.** `TrigramSpec` says what a match in either letter case, a posting
  region, a dictionary and a serial scan are, and `ScanMeaning` what such a scan answers.
  `TrigramBuild` is the two-pass builder: a counting pass, offsets in key order, and a writing
  pass that fills a byte array in place. `TrigramSearch` and `TrigramQuery` are the reader:
  smallest list as driver, galloping probes with forward-only cursors, verification of each
  candidate. `LinearScan` is the threaded fallback for short needles and `LinearExact` says of
  every table when it is the serial scan. `SubstringQuery` chooses between the two, and
  `TrigramUnique` shows that the names table alone determines every byte of the index.
* **Merging.** `Names` and `Facts` say what sources state and how two statements join;
  `Joined` says what any number of them come to, source by source.
  `Builder` is `IndexBuilder`; `Keyed` and `Order` are the merge iterators; `Store` has the
  sorted tables and `finish`; `Image` lays tables out as a file (string blob, names index,
  reverse tables, trigram index) and reads them back. `Stream` is the other writer, the
  section-by-section pass of the k-way merge. `Coalesce` merges files through any tree and
  compares the outcome with one `finish`. `Shards` localizes and remaps file ids, and
  `CachedBuild` is the cache-assisted build: a shard per CU, coalesced level upon level.
* **The `from-kzip` protocol.** `Protocol` is a state machine whose steps are accesses to
  shared state, and a crash may come between any two. `ProtocolGate` has the park gate and
  the row gauge, `ProtocolIds` the file ids, `ProtocolRows` the buffered and durable rows,
  `ProtocolNames` the file tables, `ProtocolCheckpoint` what a checkpoint holds,
  `ProtocolDurable` the finished build, and `ProtocolExample` one history.
  `Allocator` is `FileIdAllocator`.
* **Kythe ingest.** `Anchors` is the anchor accumulator, `AnchorOrder` its independence of
  arrival order, `AnchorCounts` how often it emits each row, `Attribution` the innermost
  enclosing body of a call site.
* **Queries and file format.** `Tables` has big-endian rows, `lower_bound`, range and point
  queries; `Layout` the section offsets; `Header` the header's bytes and the checks of `open`.
  `IndexFile` goes from a builder to the bytes of a file and queries its edges; `FileLookup`
  has the point queries on those bytes, `FileAnswers` what they say of a builder or of a whole
  tree of merges, `NameSearch` the substring query on them. `Callgraph` is the breadth-first
  forest over logical symbols.
* **Codecs.** `Varint` is LEB128 (section 7.6 of DWARF Version 5), `Wire` and `Kzip` are the
  protobuf encoding of compilation units ("Base 128 Varints" and "Length-Delimited Records"
  of the Protocol Buffers Encoding specification), `WireMixed` what becomes of
  any message cut off anywhere, and `Digest` the bytes fed to the content hash.

Integers are unbounded; widths appear where the code depends on them (`u32` region lengths,
wrapping range ends, 64-bit words). Bit-ors of disjoint bits are additions.

## Where code and documentation disagree

The model follows the code. Each disagreement is stated as a condition that holds exactly
when the code does what the documentation says, and where one input shows the failure a lemma
names it.

* The linear scan is documented to return the first-`limit` set. Its per-thread cap counts
  rows, not syms. `LinearExact.LinearIsSerialIff` is the exact condition for a given table:
  every one of the first `limit` syms whose first row a cap drops turns up again in a kept
  row before any other new sym does. `LinearScan.AnySymsIff` is the condition on the names alone.
* Merging shards is documented to equal one `finish`. A shard suppresses aliases by its own
  kinds: `Facts.MergeIsFinishIff` for one merge, `Facts.TreeIsFinishIff` and
  `Coalesce.TreeFileIff` for any tree, `CachedBuild.Rebuild` for the cache-assisted build;
  `Facts.MergeLosesAlias` and `Facts.MergeLosesAliasExample` show a loss.
* The choice of a display name is documented as independent of order. Two different
  degenerate names with nothing usable beside them keep the first:
  `Names.OrderIndependenceIff`, `Facts.NameOrderIff`.
* An anchor's facts may arrive in any order. With two `defines` edges on an anchor that has
  an end, order decides which bodies are emitted:
  `AnchorOrder.OrderFreeIff`, `AnchorOrder.TwoDefinesDiffer`.
* The innermost-body scan is documented to equal a smallest-span scan. The sort key leaves
  ranges that start together in any order: `Attribution.InnermostIff`,
  `Attribution.WiderMayWin`.
* Range ends wrap at the last sym: `Tables.Xrefs`, `Tables.Edges`, `IndexFile.EdgesOfBuild`.
* The callgraph is documented to union edges across all copies of a symbol. Copies are found
  by stored name, and tickets of copies differ: `Callgraph.UnionIff`, `Callgraph.SplitTickets`.

## Model

| member | source | states |
|---|---|---|
| `Varint.DecodeEncode` | crates/scry2/src/format.rs:336-374 | decoding inverts encoding wherever it sits and whatever follows |
| `Varint.EncodePrefixFree` | crates/scry2/src/format.rs:336-374 | equal bytes mean equal values: no encoding is a proper prefix of another |
| `Varint.EncodeByte` | crates/scry2/src/format.rs:336-347 | byte `i` holds bits 7i to 7i+6 of the value and its high bit says whether another byte follows |
| `Varint.WordLength` | crates/scry2/src/format.rs:336-357 | a `u32` takes at most five bytes and a `u64` at most ten |
| `Varint.Write` | crates/scry2/src/format.rs:341-347 | the shifting loop appends exactly the encoding |
| `Varint.Length` | crates/scry2/src/format.rs:353-357 | the counting loop gives the encoded length |
| `Varint.Read` | crates/scry2/src/format.rs:362-374 | the accumulating loop gives value and length of the encoding at a position |
| `TrigramSpec.RegionFitsWord` | crates/scry2/src/writer.rs:1785-1799 | for at most 2^29 names a region takes at most 5 bytes a posting and 8 a block, and fits the `u32` length column |
| `TrigramSpec.SmallTableFits` | crates/scry2/src/writer.rs:1785-1799 | at most 2^29 names always fit: row ids and region lengths stay under 2^32 |
| `TrigramSpec.FaithfulMeansFits` | crates/scry2/src/writer.rs:1785-1799 | and a table has a faithful index with `u32` lengths only if every region of it fits them |
| `TrigramSpec.FoldedSearch` | crates/scry2/src/reader.rs:501-547 | searching the lowercased name for the lowercased needle finds exactly the places where each byte is equal or the other case of the same ASCII letter |
| `TrigramSpec.PostingsAre` | crates/scry2/src/writer.rs:1738-1775 | a trigram's list: keys have no capitals, and a row is listed iff its name spells the trigram in some letter case |
| `TrigramSpec.EveryCaseListed` | crates/scry2/src/writer.rs:1738-1759 | whatever the case of its letters, each trigram of a name leads to a list that has the name |
| `TrigramSpec.TriLessIsBytes` | crates/scry2/src/reader.rs:292-315 | dictionary keys are ordered as their bytes |
| `TrigramSpec.SmallRegion` | crates/scry2/src/writer.rs:1801-1857 | a short region byte by byte: block maximum, block offset, first id, gap |
| `TrigramBuild.Visit` | crates/scry2/src/writer.rs:1738-1759 | the windows visited are exactly the (trigram, row) pairs that occur in lowercased names, in row order |
| `TrigramBuild.AcceptedIsPostings` | crates/scry2/src/writer.rs:1761-1775 | dropping repeats of the last row leaves exactly the ascending posting list of each trigram |
| `TrigramBuild.Pass1` | crates/scry2/src/writer.rs:1726-1775 | the counting pass knows each list's length, packed size and last row, for every trace |
| `TrigramBuild.Assign` | crates/scry2/src/writer.rs:1777-1799 | dictionary keys ascend, are exactly the trigrams that occur, and their regions tile the blob, for every table whose row ids and region lengths fit 32 bits |
| `TrigramBuild.TilesDisjoint` | crates/scry2/src/writer.rs:1784-1799 | no two regions overlap and all lie inside the blob |
| `TrigramBuild.PutVarint` | crates/scry2/src/writer.rs:1837-1846 | the in-place varint loop overwrites exactly its own bytes |
| `TrigramBuild.StepRegion` | crates/scry2/src/writer.rs:1829-1856 | writing one posting extends the gap-delta area and sets its block's maximum and offset |
| `TrigramBuild.StepElsewhere` | crates/scry2/src/writer.rs:1829-1856 | and leaves every other region as it was |
| `TrigramBuild.WritePosting` | crates/scry2/src/writer.rs:1829-1856 | one callback of the writing pass does exactly that step to the array |
| `TrigramBuild.Pass2` | crates/scry2/src/writer.rs:1801-1857 | the writing pass fills exactly the reserved bytes: each region decodes to its posting list, each skip entry holds its block's true maximum and offset |
| `TrigramBuild.Build` | crates/scry2/src/writer.rs:1723-1860 | the two passes give a faithful index of every table whose row ids and region lengths fit 32 bits |
| `TrigramUnique.IndexDetermined` | crates/scry2/src/writer.rs:1723-1860 | the names table alone determines the dictionary and every byte of the blob |
| `TrigramSearch.Lookup` | crates/scry2/src/reader.rs:292-315 | the dictionary search finds a row exactly when the trigram has one |
| `TrigramSearch.DecodePostings` | crates/scry2/src/reader.rs:322-342 | a region decodes to exactly the ids it was built from |
| `TrigramSearch.Gallop` | crates/scry2/src/reader.rs:361-385 | from a valid hint, the first block whose maximum reaches the candidate |
| `TrigramSearch.HintMonotone` | crates/scry2/src/reader.rs:344-358 | a cursor valid for one candidate is valid for every larger one |
| `TrigramSearch.ScanBlock` | crates/scry2/src/reader.rs:391-417 | decoding one block decides membership in the whole list |
| `TrigramSearch.Probe` | crates/scry2/src/reader.rs:355-418 | the probe answers membership and returns a cursor valid for every later candidate |
| `TrigramSearch.MatchHasTri` | crates/scry2/src/reader.rs:501-547 | a matching name holds every trigram of the lowercased needle, so intersecting loses no match |
| `TrigramSearch.NeedleTris` | crates/scry2/src/reader.rs:505-509 | the needle's distinct lowercased trigrams |
| `TrigramSearch.Driver` | crates/scry2/src/reader.rs:527-532 | the first of the shortest lists |
| `TrigramSearch.InAll` | crates/scry2/src/reader.rs:551-560 | a candidate passes iff it is in every list, and all cursors stay valid for later candidates |
| `TrigramQuery.Search` | crates/scry2/src/reader.rs:495-575 | trigram search returns exactly the first `limit` distinct syms of a serial scan, in row order |
| `LinearScan.Linear` | crates/scry2/src/reader.rs:587-644 | what the threads hand back, concatenated, deduplicated and cut |
| `LinearScan.CapsHarmlessSerial` | crates/scry2/src/reader.rs:587-644 | the threaded scan equals the serial one when no chunk exceeds its row cap |
| `LinearScan.BitingCapLoses` | crates/scry2/src/reader.rs:623-625 | otherwise some assignment of syms to the rows makes it lose one |
| `LinearScan.AnySymsIff` | crates/scry2/src/reader.rs:587-644 | the two together: equal for every assignment of syms iff no chunk has more matches than `limit`, or `limit` is 1 |
| `LinearExact.LinearIsSerialIff` | crates/scry2/src/reader.rs:587-644 | for a given table: the threaded scan is the serial scan iff each of the first `limit` syms whose first row a cap drops recurs in a kept row before a kept row brings another new sym |
| `LinearExact.HarmlessSerial` | crates/scry2/src/reader.rs:618-644 | so it is when each chunk whose cap bites keeps `limit` distinct syms or drops only syms kept before |
| `LinearExact.CapsHarmlessPatched` | crates/scry2/src/reader.rs:587-644 | caps that are harmless for every assignment of syms meet the exact condition |
| `LinearExact.DistinctHitsSerial` | crates/scry2/src/reader.rs:623-644 | and whenever the matching rows have distinct syms, however the caps bite |
| `SubstringQuery.Answer` | crates/scry2/src/reader.rs:462-472 | the dispatch: nothing asked gives nothing; a needle of three bytes or more gets the serial scan, empty dictionary included; a shorter one gets it iff every sym the caps drop is recovered in time |
| `SubstringQuery.BuildAndAnswer` | crates/scry2/src/reader.rs:462-575 | build an index, query it: for every needle of three bytes or more the syms of the first rows that spell it, letter case aside if asked |
| `ScanMeaning.ScanIsFirst` | crates/scry2/src/reader.rs:495-575 | the serial scan's answer is the one sequence of syms that match, by first matching row, in which none is left out while there is room or for one that comes later |
| `Names.PrefersIsRank` | crates/scry2/src/writer.rs:1400-1453 | the preference is the strict part of a total preorder: class, then length, then bytes |
| `Names.PreferenceIs` | crates/scry2/src/writer.rs:1400-1453 | any name beats none, one with a letter or digit one without, a plain name a ticket; then the shorter, then the one that sorts first |
| `Names.AlphanumericAre` | crates/scry2/src/writer.rs:1400-1421 | the ASCII characters that identify an element are the digits and letters |
| `Names.TicketsAre` | crates/scry2/src/writer.rs:1435-1453 | tickets are the names that start with `kythe:` |
| `Names.PrefersTransitive` | crates/scry2/src/writer.rs:1435-1453 | it and its negation are transitive, and it is asymmetric |
| `Names.PickAssociative` | crates/scry2/src/writer.rs:1435-1453 | keep-or-replace is associative, so grouping never matters |
| `Names.ChosenIsBest` | crates/scry2/src/writer.rs:68-90 | nothing is preferred to the surviving name, and it was a candidate |
| `Names.OrderFreeChoice` | crates/scry2/src/writer.rs:1423-1453 | with a usable candidate, or one non-empty name only, every order picks the same name |
| `Names.OrderIndependenceIff` | crates/scry2/src/writer.rs:1441-1446 | and exactly then: otherwise two orders disagree |
| `Order.SortDedup` | crates/scry2/src/writer.rs:319-335 | sort and dedup give the ascending sequence of the distinct elements |
| `Order.AscendingUnique` | crates/scry2/src/writer.rs:319-335 | which is determined by the elements |
| `Order.MergeSortedDedup` | crates/scry2/src/writer.rs:1310-1356 | the two-cursor merge yields the ascending union |
| `Keyed.MergeKeyed` | crates/scry2/src/writer.rs:1462-1551 | the keyed merges (refine, first wins, smaller string) yield the key-sorted join of both maps |
| `Keyed.KeyedUnique` | crates/scry2/src/writer.rs:1510-1551 | a key-sorted table is determined by what it maps |
| `Keyed.FirstPerSym` | crates/scry2/src/writer.rs:1037-1056 | one row per sym: the lexically smallest of its strings |
| `Keyed.BestUnique` | crates/scry2/src/writer.rs:1608-1657 | that choice does not depend on order or repetition of the rows |
| `Facts.JoinAssociative` | crates/scry2/src/writer.rs:267-299 | joining what two sources say is associative |
| `Facts.MergeIsFinishIff` | crates/scry2/src/writer.rs:964-970 | merging suppressed sources says what one `finish` says iff every suppressed alias survives elsewhere |
| `Facts.MergeLosesAlias` | crates/scry2/src/writer.rs:964-970 | a sym of another kind in one shard and a variable with an alias in a later one loses that alias |
| `Facts.MergeLosesAliasExample` | crates/scry2/src/writer.rs:964-970 | a concrete pair of sources where the merge and the `finish` differ |
| `Facts.CoalescedSays` | crates/scry2/src/writer.rs:1261-1298 | what any tree of merges says: all tables are the join's, and an alias stays iff some leaf holds it and no node on that leaf's path sees its sym as a variable |
| `Facts.TreeIsFinishIff` | crates/scry2/src/writer.rs:1261-1298 | so a tree says what one `finish` over its leaves says iff each alias owed by the `finish` survives the path of some leaf that holds it |
| `Facts.CoalescingTree` | crates/scry2/src/writer.rs:1261-1298 | in particular any tree over sources whose kinds agree says what one `finish` over its leaves says, and nothing is lost on the way |
| `Facts.JoinAllName` | crates/scry2/src/writer.rs:68-90 | the name any sequence of sources gives a sym is the one kept out of the names they offer, in that order |
| `Facts.NameOrderFree` | crates/scry2/src/writer.rs:1423-1453 | so rearranging sources never changes a sym's name when a usable one is offered or all non-empty ones agree |
| `Facts.NameOrderIff` | crates/scry2/src/writer.rs:1441-1446 | and exactly then: otherwise two orders of the sources name it differently |
| `Facts.TreeName` | crates/scry2/src/writer.rs:1261-1298 | through any coalescing tree the name is the one kept out of the leaves' names |
| `Joined.JoinAllMeta` | crates/scry2/src/writer.rs:68-76 | for any sequence of sources and any sym, kind and language are each those of the first source that knows one, unknown iff none does |
| `Joined.TreeMeta` | crates/scry2/src/writer.rs:1261-1298 | the same through any coalescing tree |
| `Joined.JoinAllRows` | crates/scry2/src/writer.rs:1310-1356 | an append-only row is there iff some source has it |
| `Joined.JoinAllFiles` | crates/scry2/src/writer.rs:109-111 | a file's path is that of the first source that names the file |
| `Joined.JoinAllText` | crates/scry2/src/writer.rs:1608-1657 | a sym's type and signature are each one of the sources' strings, and none of theirs is better: non-empty before empty, then the one that sorts first |
| `Builder.IndexBuilder.UpsertSym` | crates/scry2/src/writer.rs:68-76 | refine: first known kind and language, preferred name |
| `Builder.IndexBuilder.SetSymName` | crates/scry2/src/writer.rs:85-90 | offer a name to a known sym |
| `Builder.SymJoins` | crates/scry2/src/writer.rs:68-90 | each upsert joins one sym's statement to what the builder says |
| `Builder.IndexBuilder.MarkField` | crates/scry2/src/writer.rs:100-104 | the kind becomes field, whatever it was |
| `Builder.FieldBeforeOrAfter` | crates/scry2/src/writer.rs:92-104 | marking a field and learning any node kind commute |
| `Builder.IndexBuilder.UpsertFile` | crates/scry2/src/writer.rs:109-111 | the first path of a file id stays |
| `Builder.MergedIsJoin` | crates/scry2/src/writer.rs:244-299 | draining a builder joins what both say and adds their row counts |
| `Builder.IndexBuilder.MergeFrom` | crates/scry2/src/writer.rs:267-299 | the draining loops do exactly that, map entries in any order |
| `Builder.IndexBuilder.DedupTables` | crates/scry2/src/writer.rs:319-335 | nothing said changes, tables end strictly ascending, the count returned is what a drain later subtracts |
| `Store.CanonUnique` | crates/scry2/src/writer.rs:922-1100 | sorted tables are determined by what they say |
| `Store.Finish` | crates/scry2/src/writer.rs:922-1088 | `finish` writes the sorted tables of what the builder says, aliases of variables suppressed |
| `Image.Write` | crates/scry2/src/writer.rs:934-1107 | blob, references, names index, reverse tables and trigram index laid out from sorted tables, the writing pass of `finish` |
| `Image.EveryRefReads` | crates/scry2/src/writer.rs:972-1083 | every string reference of every table reads back its string |
| `Image.ReadAliases` | crates/scry2/src/reader.rs:1005-1033 | the name rows that are not a sym's canonical name are exactly the aliases |
| `Image.Read` | crates/scry2/src/reader.rs:948-1079 | reading a written file gives back the tables it was written from |
| `Image.ImageUnique` | crates/scry2/src/writer.rs:934-1107 | equal tables give equal files, names index, blob and trigram bytes included |
| `Image.ImageInjective` | crates/scry2/src/writer.rs:934-1107 | and different tables give different files |
| `Image.FewNamesFit` | crates/scry2/src/writer.rs:1785-1799 | tables of at most 2^29 names and aliases always fit |
| `Stream.FoldRows` | crates/scry2/src/writer.rs:1378-1393 | folding one row section over all sources and the delta gives the ascending rows of their join |
| `Stream.FoldKeyed` | crates/scry2/src/writer.rs:1378-1393 | folding one keyed section gives the key-sorted rows of their join |
| `Stream.SymsPass` | crates/scry2/src/writer.rs:610-635 | one pass writes the sym rows, their names and name entries, and collects the variables |
| `Stream.AliasPass` | crates/scry2/src/writer.rs:637-655 | the alias pass appends exactly the aliases of syms that are no variables |
| `Stream.StringPass` | crates/scry2/src/writer.rs:778-802 | the path, type and signature passes append each string they keep and refer to its place; types and signatures keep the non-empty ones |
| `Stream.NamesPass` | crates/scry2/src/writer.rs:657-686 | sorting the pushed entries by the text they refer to gives the names index and its trigram index |
| `Stream.WriteMerged` | crates/scry2/src/writer.rs:492-918 | the section pass of the k-way merge writes the file of exactly the suppressed join of all sources and the delta |
| `Coalesce.FilesAgree` | crates/scry2/src/writer.rs:492-1107 | whichever writer wrote them, two files are equal iff they say the same |
| `Coalesce.SmallBuildFits` | crates/scry2/src/writer.rs:1785-1799 | a build of at most 2^29 names and aliases fits through every merge |
| `Coalesce.MergeFiles` | crates/scry2/src/writer.rs:492-918 | read the sources back, merge them with the delta: the file of their suppressed join |
| `Coalesce.MergeGroup` | crates/scry2/src/writer.rs:1286-1298 | the same over an empty builder |
| `Coalesce.MergeTree` | crates/scry2/src/writer.rs:1261-1298 | merging files bottom-up through any tree writes the file of what the tree says |
| `Coalesce.TreeFileIff` | crates/scry2/src/writer.rs:1261-1298 | that file is, byte for byte, the one `finish` over the drained builders writes iff each owed alias survives the path of some leaf that holds it |
| `Coalesce.CleanBuild` | crates/scry2/src/writer.rs:267-299 | draining builders one by one and finishing writes the file of their suppressed join |
| `Coalesce.MergeOrFinish` | crates/scry2/src/writer.rs:492-1107 | the two ways carried out side by side: equal files iff every owed alias survives |
| `Shards.LocalizeFileIds` | crates/scry2/src/writer.rs:143-171 | each path gets its rank among the builder's own paths, in the file table and in every xref |
| `Shards.LocalIdCounts` | crates/scry2/src/writer.rs:143-171 | a path's local id is the number of the builder's own paths that sort before it |
| `Shards.RemappedLabels` | crates/scry2/src/writer.rs:404-449 | remapping keeps exactly the path-labelled rows about paths the build knows, each under the build's id |
| `Shards.LocalizeRestores` | crates/scry2/src/writer.rs:404-449 | localizing and remapping restores every row of a builder whose ids agree with the global ranking |
| `Shards.LocalizeIndependent` | crates/scry2/src/writer.rs:112-171 | builders with the same path-labelled facts localize to the same shard |
| `Shards.PopulateRemapped` | crates/scry2/src/writer.rs:404-449 | replaying a shard joins its remapped facts into the builder |
| `Shards.CachedGroupIsClean` | crates/scry2/src/writer.rs:1245-1284 | localized shards of CUs with clean-build ids contribute what the CUs themselves would |
| `CachedBuild.WriteShard` | crates/scry2/src/main.rs:1733-1754 | localize and finish: the shard of a CU |
| `CachedBuild.Replay` | crates/scry2/src/writer.rs:404-449 | replaying a CU's shard under global ids adds what the CU, finished with its own ids, says |
| `CachedBuild.CoalesceShards` | crates/scry2/src/writer.rs:1261-1284 | a group of shards becomes one file saying the suppressed join of what the CUs say |
| `CachedBuild.FirstLevel` | crates/scry2/src/main.rs:2052-2083 | the first level: one file for each consecutive group of shards |
| `CachedBuild.NextLevel` | crates/scry2/src/main.rs:2096-2121 | an upper level: one file for each consecutive group of files |
| `CachedBuild.CoalesceAll` | crates/scry2/src/main.rs:2045-2130 | level upon level until the fan-in is small, then the final merge: the file of the tree so built |
| `CachedBuild.BuildTreeLeaves` | crates/scry2/src/main.rs:2045-2121 | grouping neither drops, repeats nor reorders a shard, for any group size |
| `CachedBuild.Rebuild` | crates/scry2/src/main.rs:2025-2130 | the file of a cache-assisted build is the file of a clean build iff each owed alias survives the tree, which kinds that agree guarantee |
| `Allocator.FileIdAllocator.Intern` | crates/scry2/src/kythe.rs:402-414 | known paths keep their id and become referenced, new ones get the next id |
| `Allocator.FileIdAllocator.SeedPaths` | crates/scry2/src/kythe.rs:434-445 | on a fresh allocator every path's id is its rank; first id wins otherwise |
| `Allocator.FileIdAllocator.SeedFrom` | crates/scry2/src/kythe.rs:454-460 | one table: first id wins, the counter ends past every id |
| `Allocator.SeedAll` | crates/scry2/src/main.rs:1259-1276 | seeding from every shard gives a state a resumed run may start from |
| `Allocator.FileIdAllocator.PushTo` | crates/scry2/src/kythe.rs:473-478 | the referenced paths join the file table whatever the iteration order |
| `Allocator.PushedIsTable` | crates/scry2/src/kythe.rs:473-478 | and that table is the one the protocol's shards carry |
| `ProtocolGate.QuietSnapshotIsComplete` | crates/scry2/src/main.rs:1465-1474 | in every state of every history: while a snapshotter that left its wait alone holds the gate, no other worker is in a CU body or holds a sink, so no sink is skipped |
| `ProtocolGate.GateExact` | crates/scry2/src/main.rs:2256-2275 | the in-flight count is exact, there is at most one snapshotter, and the gate is up iff one stands behind it |
| `ProtocolGate.GaugeExact` | crates/scry2/src/main.rs:1766-1921 | the gauge equals the rows in all sinks plus those drained and not yet subtracted, less an add the lock holder still owes; no subtraction underflows |
| `ProtocolIds.SeedRestores` | crates/scry2/src/main.rs:1252-1276 | re-seeding from shards that agree restores exactly their namespace |
| `ProtocolIds.DurableIdsAgree` | crates/scry2/src/main.rs:1252-1285 | over every history no id in the durable shards names two paths and no path has two ids |
| `ProtocolIds.SeededRankStays` | crates/scry2/src/kythe.rs:415-445 | after `seed_paths` every seeded path keeps its rank through any interleaving of the run |
| `ProtocolIds.SeededInternIsRank` | crates/scry2/src/kythe.rs:415-445 | so a row ingested for a seeded path carries that rank |
| `ProtocolRows.NewShardOk` | crates/scry2/src/main.rs:1894-1934 | what a snapshot writes resolves, through its own file table, to exactly the rows of its CUs |
| `ProtocolRows.RowsAlways` | crates/scry2/src/main.rs:1712-1777 | in every state buffered rows are exactly what their CUs produce, and every durable shard resolves to its CUs' rows |
| `ProtocolDurable.CheckpointIsDurable` | crates/scry2/src/main.rs:1923-1945 | in every reachable state each sha in the checkpoint is a successful CU all of whose rows are in one durable shard |
| `ProtocolDurable.CheckpointHasShards` | crates/scry2/src/main.rs:1184-1196 | the resume refusal "shas present but no shards" is never met |
| `ProtocolCheckpoint.CheckpointIsExact` | crates/scry2/src/main.rs:1924-1945 | over every history a successful checkpoint write leaves exactly the checkpoint the run started from and every CU of every shard the run has written so far |
| `ProtocolCheckpoint.CheckpointNeverShrinks` | crates/scry2/src/main.rs:1924-1945 | across steps, crashes and resumes the checkpoint only grows |
| `ProtocolCheckpoint.ResumeSkips` | crates/scry2/src/main.rs:1216-1218 | once a run's checkpoint write has succeeded no later resume plans a CU of a shard that run had written; a resume plans exactly the units the checkpoint does not hold |
| `ProtocolCheckpoint.ResumePlanIs` | crates/scry2/src/main.rs:1216-1218 | exactly which units the next resume runs again, shards an earlier run left without a checkpoint included |
| `ProtocolNames.NamedPathsTouched` | crates/scry2/src/kythe.rs:473-478 | file tables of shards and of the finished build name only paths some unit's rows are about, whatever was seeded |
| `ProtocolDurable.DurableAlways` | crates/scry2/src/main.rs:1889-1959 | in every state each successful CU is durable, buffered or still ahead of its stripe's worker, unless a shard write failed |
| `ProtocolDurable.FinishedBuildIsExact` | crates/scry2/src/main.rs:1991-1999 | after any crashes and accepted resumes, a finished build's path-labelled rows are exactly those of the successful CUs, every row is named, names are one-to-one |
| `ProtocolExample.CrashedBuildFinishes` | crates/scry2/src/main.rs:1147-1285 | the histories are not vacuous: one with a snapshot, a crash, an accepted resume and a finished build exists |
| `Anchors.IngestState.FlushReady` | crates/scry2/src/kythe.rs:819-854 | emits the pending edges of a ready anchor once, with bodies whose end is known |
| `Anchors.IngestState.ProcessEntry` | crates/scry2/src/kythe.rs:674-814 | one kind, start, end or edge does exactly the step of the model |
| `Anchors.AllRowsAre` | crates/scry2/src/kythe.rs:819-854 | the rows of an anchor's edges: each as often as there are edges that yield it, xref, call site or body |
| `AnchorOrder.RunEmitsOwed` | crates/scry2/src/kythe.rs:674-854 | for every stream with one path and start per anchor, at most one end, and at most one `defines` where the anchor completes with an end: each edge is emitted once iff its anchor's kind and start arrive, a body iff its end does, and files are those of complete anchors |
| `AnchorCounts.RunEmitsCounted` | crates/scry2/src/kythe.rs:674-854 | for every well-formed stream, each xref is emitted as often as there are edge events with its sym, role, path and a non-empty target on an anchor that gets a kind and that start; each call site as often as there are such ref and call edges; each body as often as there are such `defines` edges whose anchor gets that end |
| `AnchorCounts.EndAfterFlush` | crates/scry2/src/kythe.rs:802-854 | in any stream, an end after a flush records the last `defines` flushed unless the flush had an end and recorded it, and with none flushed the one pending from before |
| `AnchorCounts.Ingest` | crates/scry2/src/kythe.rs:581-814 | ingesting a stream leaves each of the three vectors with exactly those counts |
| `AnchorOrder.EmissionOrderFree` | crates/scry2/src/kythe.rs:674-854 | any two orders of the same events emit the same rows and files |
| `AnchorOrder.VectorsOrderFree` | crates/scry2/src/kythe.rs:819-854 | in each of the xref, call-site and body vectors separately |
| `AnchorOrder.TwoDefinesDiffer` | crates/scry2/src/kythe.rs:683-707 | two `defines` edges on one anchor do depend on order |
| `AnchorOrder.TwoBodiesDiffer` | crates/scry2/src/kythe.rs:683-854 | so does every consistent stream in which a complete anchor with an end has two: some rearrangement emits other rows |
| `AnchorOrder.OrderFreeIff` | crates/scry2/src/kythe.rs:674-854 | a consistent stream emits the same rows in every order iff each complete anchor with an end has at most one `defines` |
| `Attribution.InnermostContaining` | crates/scry2/src/kythe.rs:890-911 | none iff no range contains the point, else the sym of the last container in table order |
| `Attribution.ContainsHalfOpen` | crates/scry2/src/kythe.rs:890-911 | ranges are half-open: cut in two, exactly one part has a point of the whole |
| `Attribution.InnermostIff` | crates/scry2/src/kythe.rs:880-911 | on nested anchors that is a smallest range however the sort leaves ties, iff ranges that start together end together |
| `Attribution.SymIff` | crates/scry2/src/kythe.rs:292 | the sym is the same for every arrangement iff ranges that start together name one sym |
| `Attribution.WiderMayWin` | crates/scry2/src/kythe.rs:292 | a nested pair with one start where the wider range is answered |
| `Callgraph.DupSyms` | crates/scry2/src/server.rs:573-581 | the group: syms filed under the name with the same logical key, and the representative |
| `Callgraph.NeighboursOf` | crates/scry2/src/server.rs:582-591 | the ascending union of the group's edges |
| `Callgraph.AdmitKeeps` | crates/scry2/src/server.rs:605-622 | admitting a sym keeps the forest and shows its logical symbol, adding a node only if it is new |
| `Callgraph.Walked` | crates/scry2/src/server.rs:623-663 | always a breadth-first forest with dense ids, parents one hop up, one node per logical key, at most the cap or one past the roots; unless truncated every filter-passing neighbour short of the depth is shown one hop further |
| `Callgraph.NoShorterChain` | crates/scry2/src/server.rs:632-657 | in an untruncated forest no chain of edges from a root reaches a node in fewer hops than it is shown at |
| `Callgraph.ParentChain` | crates/scry2/src/server.rs:632-657 | and the parents give a chain of exactly that length |
| `Callgraph.TicketsShareKey` | crates/scry2/src/server.rs:400-417 | tickets that differ only before their signature are one logical symbol |
| `Callgraph.LogicalKeyIs` | crates/scry2/src/server.rs:400-417 | a name that is no ticket is its own identity, a ticket's is what follows its last `#` |
| `Callgraph.NeighboursAre` | crates/scry2/src/server.rs:563-591 | neighbours are ends of edges of copies, in a direction that was asked for; of all copies when they are filed under one name |
| `Callgraph.UnnamedApart` | crates/scry2/src/server.rs:400-417 | syms without a name are told apart by the sixteen hex digits of their 64 bits |
| `Callgraph.WholeSymbolCovered` | crates/scry2/src/server.rs:563-581 | edges of every copy are followed when all copies are filed under one name |
| `Callgraph.UnionIff` | crates/scry2/src/server.rs:563-581 | whatever the edges, no copy's edge is missing iff all copies are filed under one name |
| `Callgraph.SplitTickets` | crates/scry2/src/server.rs:563-581 | two copies with different tickets where one's edge is missing |
| `Tables.BytesCompareAsColumns` | crates/scry2/src/format.rs:160-171 | comparing rows as bytes is comparing their column tuples |
| `Tables.DecodeRow` | crates/scry2/src/reader.rs:1091-1104 | decoding inverts the big-endian layout |
| `Tables.WriteTable` | crates/scry2/src/writer.rs:1134-1141 | rows written in order sit at their strides |
| `Tables.LowerBound` | crates/scry2/src/reader.rs:1108-1117 | the binary search splits a sorted table at the needle |
| `Tables.Xrefs` | crates/scry2/src/reader.rs:705-725 | exactly the rows of a sym with a role in range, except for the last sym with an open role range, where the answer is empty |
| `Tables.Edges` | crates/scry2/src/reader.rs:755-902 | the edge scans return exactly the rows of the key iff the key is not the last one or the table is empty |
| `Tables.Lookup` | crates/scry2/src/reader.rs:648-699 | the point search finds a row of the key, or nothing iff there is none |
| `Layout.PlacesAreWellPlaced` | crates/scry2/src/writer.rs:1082-1107 | section offsets are page-aligned, in order, disjoint and within the total |
| `Layout.OpenAccepts` | crates/scry2/src/reader.rs:46-77 | the header check accepts iff every section, without overflow, is in the file |
| `Layout.OpenIff` | crates/scry2/src/reader.rs:46-77 | for a laid-out file that is so iff the file has at least its declared length |
| `Layout.FinishedFileOpens` | crates/scry2/src/reader.rs:52-68 | for the real sections in the real check order, whatever the row counts, empty ones included |
| `Header.Write` | crates/scry2/src/writer.rs:1661-1669 | magic, version, and each section's offset and count as little-endian words in header order |
| `Header.Open` | crates/scry2/src/reader.rs:32-77 | opening fails for exactly the stated reason: too short, bad magic, bad version, a section outside; otherwise it finds the sections the header names |
| `Layout.WriteFile` | crates/scry2/src/writer.rs:1109-1241 | every section reads back at its offset and the file has its declared length, empty trailers included |
| `IndexFile.Encode` | crates/scry2/src/writer.rs:1109-1241 | header and every section of a finished image, as columns at its place |
| `IndexFile.Open` | crates/scry2/src/reader.rs:32-77 | a file so written opens, and its header leads to its sections |
| `IndexFile.BuildFile` | crates/scry2/src/writer.rs:922-1241 | finish a builder and write its file |
| `IndexFile.XrefsOfBuild` | crates/scry2/src/reader.rs:705-725 | builder to bytes to `open` to `xrefs`: exactly the builder's rows of the sym with a role in range, each once, ascending |
| `IndexFile.EdgesOfBuild` | crates/scry2/src/reader.rs:755-902 | builder to bytes to `open` to a forward or reverse edge query: exactly the builder's edges with that near or far end, iff the key is not the last one or there are no edges |
| `FileLookup.SymMeta` | crates/scry2/src/reader.rs:648-671 | the point search on a file's bytes: kind, language and name of a sym, nothing iff the file has no such sym |
| `FileLookup.FilePath` | crates/scry2/src/reader.rs:906-926 | a file's path, nothing iff the id is unknown |
| `FileAnswers.MetaOfBuild` | crates/scry2/src/reader.rs:648-671 | builder to bytes to `open` to `sym_meta`: exactly the kind, language and name the builder has, nothing iff it has none |
| `FileAnswers.PathOfBuild` | crates/scry2/src/writer.rs:109-111 | the same for a file's path |
| `FileAnswers.TypeOfBuild` | crates/scry2/src/reader.rs:674-699 | builder to bytes to `type_of`: the type that sorts first among those given, nothing iff none was |
| `FileAnswers.SigOfBuild` | crates/scry2/src/reader.rs:830-855 | the same for signatures |
| `FileAnswers.MetaOfMerge` | crates/scry2/src/writer.rs:1261-1298 | merge files through any tree, write the root, open it, `sym_meta`: first known kind, first known language, the name kept out of all offered |
| `NameSearch.FindInFile` | crates/scry2/src/reader.rs:462-575 | the search on names, dictionary, postings and blob read from a file's bytes is the serial scan of its names index |
| `NameSearch.FindInBuild` | crates/scry2/src/reader.rs:462-575 | builder to bytes to `open` to substring query: the first `limit` syms, in name order, whose name or unsuppressed alias spells the needle, letter case aside if asked, and the same answer as before writing |
| `NameSearch.GoesByBuilder` | crates/scry2/src/writer.rs:964-970 | the names a finished file knows a sym by: the builder's name, and its aliases unless it is a variable |
| `Wire.WriteTagLen` | crates/scry2/src/kzip.rs:843-847 | tag, length, payload |
| `Wire.ReadWord` | crates/scry2/src/kzip.rs:770-782 | the ten-round loop reads a 64-bit word, errors on truncation and on longer varints |
| `Wire.ReadEncoded` | crates/scry2/src/kzip.rs:759-790 | an encoded record reads back wherever it sits |
| `Wire.ParseMessage` | crates/scry2/src/kzip.rs:672-684 | the parser loop folds exactly the records of the buffer, or fails at the first bad one |
| `Wire.FoldEncoded` | crates/scry2/src/kzip.rs:672-757 | parsing an encoding folds exactly the records that were encoded |
| `Wire.FindField` | crates/scry2/src/kzip.rs:265-285 | the truncating walk for one field |
| `Wire.FindEncoded` | crates/scry2/src/kzip.rs:265-285 | on an encoding it finds exactly the first record with the number |
| `WireMixed.FindInPrefix` | crates/scry2/src/kzip.rs:265-310 | on any prefix of any message, records of every wire type included, the truncating walk finds the first length-delimited record with the number, clipped where the bytes end, and nothing if they end before its length does |
| `WireMixed.ParsePrefix` | crates/scry2/src/kzip.rs:672-792 | on any prefix of any message the parser folds its records, or fails iff it meets one that is not length-delimited, one cut off, or one it cannot store |
| `Kzip.IndexedRoundTrip` | crates/scry2/src/kzip.rs:672-841 | parsing the encoding of any unit returns the unit, empty strings, empty inputs and omitted defaults included |
| `Kzip.Reparse` | crates/scry2/src/kzip.rs:672-800 | the same through the parser's loop |
| `Kzip.VNameBytes` | crates/scry2/src/kzip.rs:835-841 | the tag and length bytes of a VName's fields |
| `Kzip.InputBytes` | crates/scry2/src/kzip.rs:823-834 | of an input's |
| `Kzip.UnitBytes` | crates/scry2/src/kzip.rs:802-822 | and of a unit's |
| `Kzip.PeekPath` | crates/scry2/src/kzip.rs:214-233 | the peek as the source composes it |
| `Kzip.PeekExact` | crates/scry2/src/kzip.rs:214-233 | what the peek says of any encoded unit, in terms of its fields |
| `Kzip.PeekAgrees` | crates/scry2/src/kzip.rs:156-164 | a non-empty peek is the primary path; the exact condition under which peek and primary path are equal |
| `Digest.Hasher.AddStr` | crates/scry2/src/cache.rs:164-167 | a length-prefixed string |
| `Digest.ContentDigest` | crates/scry2/src/cache.rs:129-150 | the bytes fed to the hash, inputs in set order |
| `Digest.BufferInjective` | crates/scry2/src/cache.rs:120-150 | the bytes determine indexer tag, language, arguments in order and the input list |
| `Digest.DigestIff` | crates/scry2/src/cache.rs:129-150 | equal bytes iff same indexer tag, same language, same arguments in order and same set of (path, digest) inputs |
| `Digest.DigestStarts` | crates/scry2/src/cache.rs:129-135 | schema version, tag and language come first |

## Left out

- Strings are not clamped at 65535 bytes and string lengths are not 16-bit; the model is of indexes whose strings are shorter.
- UTF-8: names and paths are byte strings. `Names` takes only ASCII letters and digits as alphanumeric where the source asks Unicode.
- Tables whose row ids, region lengths or other numbers do not fit their columns: the source wraps or truncates them unchecked, and no faithful index of them exists (`TrigramSpec.FaithfulMeansFits`).
- Header words are little-endian, as on the platforms the index is built for; the source copies the struct as it is in memory.
- Stream.WriteMerged: collects the rows of a section before it writes them; the code writes each row as its merge yields it.
- CachedBuild.Rebuild: shards are taken in the order of their CUs, and the threads of one level run one after another; each writes a file of its own.
- Shards.PopulateRemapped: replays tables other than files and xrefs in bulk, not row by row.
- Keyed.MergeKeyed: the iterators yield rows lazily; the model collects them.
- Varint.Read: requires a final byte before the end of the buffer, as the source relies on in buffers it wrote itself.
- Digest.ContentDigest: requires lengths below 2^64, which every slice in memory has.
- Kzip.IndexedRoundTrip: requires an encoding shorter than 2^64 bytes, which every buffer in memory is.
- Protocol steps are sequentially consistent; weak memory orderings are not modelled. A few steps join adjacent accesses, as `Protocol` says at its head. The quiescence time cap is a step that may be taken at any time. When a snapshot is due is not modelled: it may start after any CU.
- A CU is a set of rows or a failure, the same in every run; indexer subprocesses, pipes and panics are not modelled. File ids do not overflow 32 bits.
- Cache lookup and storage, the legacy base partial, runs that start over leftover shards, and cleanup of partial files.
- mmap, fsync, rename and zip archives: a shard or a checkpoint is written in one atomic step.
- xxHash of names and digests; MarkedSource, type and signature rendering; the `completes` bridge; JSON units; JSON peeks.
- The completed path filter of the callgraph is a set of rejected syms; narrowing roots by definition path happens before the walk.
- Exact-name and prefix lookups in the names index, the CLI, the socket server, the REPL, progress reports and the benchmark crate.
