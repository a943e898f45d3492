# Verification of the full-text index core

A Dafny model of the logic this repository adds around its search engine, with proofs about it. Four parts are
modelled, each in the form the code has: loops, buffers and objects that change in place are methods and classes
proved against specification functions; pure code is functions and lemmas.

1. **The archive** (`Paths`, `Storage`, `Envelope`, `ReadPlan`, `ReadCache`, `ConcurrentReads`, `RoundTrip`,
   `BatchRead`). A writer lays index files end to end behind a header; a reader validates the header and serves byte
   ranges through a shared cache of blocks. The cache key is a position only, so the cache is correct because header
   validation makes files disjoint. `ConcurrentReads` is a transition system in which any number of threads interleave.
   Planning, lookup, each counter update outside the lock, the input read, taking the lock, and each change and
   counter update of an insertion are steps of their own; a hitting lookup counts its hit, an insertion that finds its
   key returns, and the last counter update of an insertion unlocks, within one step. The main results run from the
   writer's list of files to what is read back: one read after another, and by any number of threads at once.
2. **Queries** (`QueryCompiler`, `QueryMeaning`, `QueryScores`, `Demotion`, `DemoteScorers`, `WeightScorers`,
   `DocSets`, `FuzzyScorer`, `FuzzyAutomaton`, `Utf8`, `PhraseText`). A recursive query language is compiled to an
   engine query tree; the tree becomes weights and the weights become scorers that move cursors in place. A query has
   a meaning (which documents) and a worth (which score) of its own, and both survive every stage, for any sequence of
   calls on the scorers.
3. **The ICU token stream** (`TextOffsets`, `WordSplitting`, `IcuTokens`). One loop over byte offsets yields exactly
   the tokens of a declarative splitting of the text.
4. **Options** (`OrderedFold`, `Dedup`, `TokenizerOptions`, `IndexConfig`, `OptionMeaning`). `from_options` folds over
   an unordered map. For one visiting order the result is said outright: every field is what the last entry under its
   literal keys says, or its literal default, exactly when all values are readable and the whole is consistent. Where one visiting order succeeds, all orders give the same configuration exactly when no two tokenizer entries
   write different values to one field, no two row ids differ, no two field lists differ, and, unless a field list
   overrides it, no two single text fields differ.

`Base` holds results, machine integers and the string operations of the Rust standard library. Definitions that code and
specification share (limits, formats, string operations, encodings, option keys) are pinned by lemmas that write the
numbers, bytes and keys out. Check everything with `dafny verify dfyconfig.toml`.

## What is assumed

- The header codec is any pair of functions with `decode(encode(h)) == h`.
- A positional read returns exactly the requested bytes or fails; writing to the output never fails. In the
  concurrent model any read may also fail at any time.
- `usize` has 64 bits and wraps on overflow, as in a release build. Read counters are unbounded.
- Paths are Unix paths. Lower-casing is an arbitrary function. A character is a Unicode scalar value.
- Scores are real numbers; a float is a finite real or not finite.
- The engine keeps its contracts: a doc set starts on its first document, ascends strictly and `seek(t)` goes to the
  least document not below `t`; a boolean query matches when all `Must` clauses match, no `MustNot` clause does, and
  some `Should` clause does if there is no `Must` clause, and its score is the sum over its matching positive clauses;
  a boost multiplies the boost handed to the inner scorer; documents of a segment lie below its maximum.
- The Levenshtein automaton is any deterministic automaton with a rejecting sink; the dictionary is a trie with
  ascending edges, searched by entering a node only while its state can match.
- The word segmenter gives boundaries that never go back and end at the end of the text.
- A query is judged per segment, because the expansion cap is applied per segment.

Every lemma switches automatic induction off, so each inductive step is written out.

## What turned out not to hold

- **Validated names can shadow each other.** Validation compares names as strings, the directory compares paths: `a`
  and `a/` are both accepted and only the later one can be opened (`Envelope.AcceptedNameCanBeShadowed`). Every file
  keeps its entry exactly when the names are distinct as paths (`Envelope.EveryFileHasAnEntryIffPathsDistinct`); names
  without slashes, the only ones a writer lists, always are.
- **The overlap scan can depend on the listing order.** Every order of accepted files is accepted exactly when no empty
  file starts where a longer one does (`Storage.EveryListingAcceptedIff`); `Storage.ListingOrderDecides` is an instance
  where it fails. The order in which a writer lays files out is always accepted (`Storage.LayoutIsAccepted`).
- **A readable range can be refused** when the rest of its block is missing from the input
  (`RoundTrip.TruncatedEnvelopeOpens`, in an envelope that opens), exactly when the block is neither cached nor all
  there (`ReadCache.ReadableRangeIsMissingIff`). Over a written archive it never happens
  (`RoundTrip.HeldBytesAreNeverMissing`).
- **A match without a column fails on padded field names**, although the configuration is valid
  (`QueryCompiler.PaddedFieldNameIsNotFound`, and `QueryCompiler.ColumnlessMatchSearchesAllFieldsIff` for when it works).
- **A boost one float step from 1 is dropped** (`QueryScores.DroppedBoostShows` is an instance,
  `QueryScores.FieldBoostIsExactIff` says when it shows).
- **Option order can matter**: two spellings of one option with different values, in the tokenizer's fold
  (`TokenizerOptions.SpellingsOfStemCompete`) and in the field options (`IndexConfig.SpellingsOfColumnsDispute`). The exact
  conditions are `TokenizerOptions.OrderNeverMattersIffNoEntriesCompete` and `IndexConfig.OrderNeverMattersIff`. The two
  folds also normalise keys differently: only the field options accept underscores for dashes.

## Model

| member | source | states |
|---|---|---|
| Base.TrimDropsOuterBlanks | core/src/storage.rs:137-137 | trimming removes whitespace at both ends, all of it, and nothing else |
| Base.WhitespaceIs | core/src/storage.rs:137-137 | whitespace is the 25 code points with the Unicode property White_Space |
| Base.SplitCutsAtSeparators | core/src/config.rs:171-171 | splitting cuts at every separator and nowhere else |
| Base.ReplaceOfOneChar | core/src/config.rs:157-157 | replacing a character by another changes exactly its occurrences |
| Paths.PlainNameShape | core/src/storage.rs:177-190 | the accepted names are exactly one proper file name followed by nothing but slashes and lone dots |
| Paths.SlashFreeNamesAreKeys | core/src/archive_directory.rs:66-77 | without slashes, different names are different directory keys |
| Paths.TrailingSlashIsTheSamePath | core/src/archive_directory.rs:76-76 | a name and the name with a slash behind it are both accepted and are one directory key |
| Storage.LayOut | core/src/index.rs:167-178 | the offset loop succeeds iff the total length fits 64 bits, and then yields the prefix-sum layout |
| Storage.LayoutTilesTheBody | core/src/index.rs:167-178 | laid out files start at zero, each ends where the next starts, the last ends at the total length |
| Storage.LayoutIsAccepted | core/src/storage.rs:147-174 | any layout, empty files included, passes every range check; only names can be refused |
| Storage.SortIsStable | core/src/storage.rs:164-164 | the sort orders by start and keeps the listing order of equal starts |
| Storage.StableSortIsUnique | core/src/storage.rs:164-164 | ascending starts and the order within each start determine the sorted list |
| Storage.ScanAcceptsIffNoOverlap | core/src/storage.rs:164-173 | the scan after the stable sort accepts exactly the lists without overlapping ranges |
| Storage.ScanForOverlap | core/src/storage.rs:164-174 | the loop over sorted ranges answers whether no two ranges overlap |
| Storage.ValidateEntries | core/src/storage.rs:148-162 | the loop accepts iff names are plain and distinct and all ends fit 64 bits, and collects all ranges |
| Storage.ValidateHeader | core/src/storage.rs:135-175 | succeeds iff configuration, version, file list, names, ends and overlaps are all in order |
| Storage.AcceptedFilesAreDisjoint | core/src/storage.rs:148-174 | any two accepted files lie apart; not even an empty one lies inside another |
| Storage.HeaderAcceptedIff | core/src/storage.rs:135-175 | a header is accepted iff each demand holds, written out: configuration, version, files, plain and distinct names, 64-bit ends, no overlap |
| Storage.EveryListingAcceptedIff | core/src/storage.rs:147-174 | of accepted files every listing order is accepted iff no empty file starts where a longer one starts |
| Storage.EmptyFileMustBeListedFirst | core/src/storage.rs:147-174 | two such files, with valid names and ends, are accepted in one listing order and rejected in the other |
| Storage.ListingOrderDecides | core/src/storage.rs:164-173 | two concrete files of that kind |
| Envelope.Be32RoundTrip | core/src/storage.rs:100-105 | four big-endian bytes read back as the number written |
| Envelope.FirstByteIsMostSignificant | core/src/storage.rs:117-123 | four bytes are read with the most significant byte first |
| Envelope.WrittenPrefix | core/src/storage.rs:96-106 | what is written starts with "PFTIDX01", version 1 and the header's length, byte for byte |
| Envelope.WellFormedIff | core/src/storage.rs:110-133 | what is read must start with these bytes, announce at most 16 MiB, hold that many, decode and be accepted |
| Envelope.WriteEnvelopeHeader | core/src/storage.rs:90-108 | fails exactly on a header above 16 MiB, before writing; otherwise appends magic, version, length and header |
| Envelope.CopyChunks | core/src/storage.rs:77-84 | the chunk loop appends exactly the first `length` bytes of a file, or fails iff the file is shorter |
| Envelope.WriteBodies | core/src/storage.rs:75-85 | all recorded parts are appended in order, or it fails iff some file is too short |
| Envelope.WriteEnvelopeFromPaths | core/src/storage.rs:60-88 | succeeds iff counts agree, the header fits and every file is long enough; then the output grew by exactly the envelope |
| Envelope.ReadHeader | core/src/storage.rs:110-133 | succeeds iff magic, version, sizes, codec and validation all agree, and returns the header and where the body starts |
| Envelope.WrittenEnvelopeReadsBack | core/src/storage.rs:60-133 | what was written decodes to the same header, and is rejected only if validation rejects that header |
| Envelope.WrittenHeaderAcceptedIff | core/src/index.rs:180-187 | a writer's header is rejected only for its configuration, a blank version, an empty list or bad names |
| Envelope.OpenDirectory | core/src/archive_directory.rs:59-83 | fails iff a start position overflows; otherwise maps each path to the file listed last under it |
| Envelope.LastListedWins | core/src/archive_directory.rs:65-77 | a path finds the last file listed under it |
| Envelope.EveryFileHasAnEntryIffPathsDistinct | core/src/archive_directory.rs:65-77 | no file is lost iff no two names are the same path |
| Envelope.AcceptedNameCanBeShadowed | core/src/storage.rs:150-157 | two files that validation accepts of which the directory finds only the second |
| Envelope.SlashFreeNamesAreDistinctPaths | core/src/index.rs:503-526 | names without slashes never shadow each other |
| Envelope.LaidOutFilesStand | core/src/index.rs:167-189 | behind any header every file stands at the offset recorded for it |
| Envelope.WrittenFilesAreServed | core/src/archive_directory.rs:59-83 | in the directory over a written envelope, each name leads to exactly its own bytes |
| ReadPlan.PlanFollowsBlocks | core/src/archive_directory.rs:200-258 | a read goes through the cache iff it stays in one 64 KiB block of its file, and fetches that block; otherwise it fetches its range; refused are ranges outside the file and positions beyond 64 bits |
| ReadPlan.PlannedBlockCoversTheRange | core/src/archive_directory.rs:233-258 | a planned block lies in its file, contains the range, and the slice is in bounds |
| ReadPlan.KeysAreNotAliased | core/src/archive_directory.rs:243-256 | in disjoint files a key stands for one block of one file, with one length |
| ReadPlan.OverlappingFilesAlias | core/src/archive_directory.rs:243-256 | in overlapping files one key can stand for two blocks of different length |
| ReadPlan.CachedBlockAnswers | core/src/archive_directory.rs:249-258 | whatever true block is found under a planned key, its slice is the requested range of the input |
| ReadPlan.AcceptedFilesAreNotAliased | core/src/storage.rs:148-174 | the files of an accepted header are disjoint, so keys are not aliased |
| ReadPlan.NamesOpenTheirFiles | core/src/archive_directory.rs:161-167 | under distinct paths each name opens the file it was listed with |
| ReadCache.QueueIsAsLongAsTheMap | core/src/archive_directory.rs:274-277 | a duplicate-free queue of the map's keys is as long as the map |
| ReadCache.InsertEvictsAtMostTheOldest | core/src/archive_directory.rs:311-318 | the eviction loop removes nothing below 256 blocks and exactly the oldest block at 256 |
| ReadCache.InsertKeepsOrder | core/src/archive_directory.rs:303-323 | an insertion keeps the queue a duplicate-free list of the keys and the map within 256 blocks |
| ReadCache.InsertKeepsBlocks | core/src/archive_directory.rs:303-323 | inserting a true block keeps every cached block true |
| ReadCache.ReadableRangeIsMissingIff | core/src/archive_directory.rs:233-266 | a range the input has cannot be served exactly when its block is neither cached nor all there |
| ReadCache.ReadableRangeCanBeMissing | core/src/archive_directory.rs:249-256 | wherever a file of ten bytes starts, an input that ends five bytes into it has such a range |
| ReadCache.ReadMetrics.RecordPread | core/src/io.rs:64-72 | counts one call, one range per request, and all requested bytes |
| ReadCache.ReadMetrics.RecordCacheEviction | core/src/io.rs:86-89 | one more eviction and one cached block less; that the gauge stays the map's size is kept by every caller |
| ReadCache.MeteredInput.PreadOne | core/src/index.rs:310-315 | counts call, range and bytes before it reads; returns the exact bytes or nothing |
| ReadCache.ArchiveReadCache.Get | core/src/archive_directory.rs:287-297 | finds exactly what the map holds and counts a hit iff it finds it |
| ReadCache.ArchiveReadCache.Insert | core/src/archive_directory.rs:303-323 | keeps a block that is already there; otherwise the new state is the evicted and extended cache, with counters to match |
| ReadCache.ArchiveFileHandle.ReadCachedBlock | core/src/archive_directory.rs:249-256 | returns a true block, cached afterwards; fails iff it is not cached and the input lacks it; counts a hit, or a miss and one read of the whole block |
| ReadCache.ArchiveFileHandle.ReadBytes | core/src/archive_directory.rs:200-266 | exact bytes of the range; refused iff the plan refuses; fails iff the input lacks the block or range needed; keeps the cache true; reads the input only for a direct range or a block that is not cached, and counts exactly that |
| ConcurrentReads.StepKeepsInv | core/src/archive_directory.rs:200-323 | every atomic step of every thread keeps the invariant on calls, lock, cache, gauge and totals |
| ConcurrentReads.RunKeepsInv | core/src/archive_directory.rs:200-323 | the invariant holds in every state of every interleaving of any number of threads |
| ConcurrentReads.ConcurrentReadsAreExact | core/src/archive_directory.rs:200-323 | in every reachable state each cached block is the input's, and each finished call has the exact bytes, was refused by its file's range, or had a fetch that the input lacks or did fail |
| ConcurrentReads.CacheIsConsistentWhenUnlocked | core/src/archive_directory.rs:303-323 | queue and map agree and stay within 256 blocks; the gauge is the map's size whenever the lock is free and is never negative |
| ConcurrentReads.MetricsAreConserved | core/src/io.rs:64-89 | cached plus evicted blocks are the insertions and insertions never exceed misses; once calls settle, hits plus misses are the lookups, and calls and ranges are the reads of the input |
| ConcurrentReads.CachedBlocksAreNotReadAgain | core/src/archive_directory.rs:249-256 | a lookup that finds its block ends the call with a hit and no read; any other goes on to a miss |
| ConcurrentReads.FaultFreeCallsDoNotFail | core/src/archive_directory.rs:261-265 | while no read of the input fails, no call is failed by it |
| ConcurrentReads.SomeCallCanMove | core/src/archive_directory.rs:287-323 | no deadlock: in every reachable state with an unfinished call some unfinished call can take its next step |
| ConcurrentReads.StepsMakeProgress | core/src/archive_directory.rs:200-323 | each step of a call brings it closer to its end, evictions included, and takes no other call further from its own |
| ConcurrentReads.CallsAreShort | core/src/archive_directory.rs:200-323 | a call has at most twelve steps of its own left, and none exactly when it is done |
| RoundTrip.WriteIndex | core/src/index.rs:166-189 | layout and writing succeed iff sizes, header and contents fit, and then append exactly the envelope |
| RoundTrip.OpenIndex | core/src/index.rs:202-216 | opens iff the envelope is well formed, of the running engine's version and its positions fit; returns its header, of that version, and directory |
| RoundTrip.WrittenIndexOpens | core/src/index.rs:317-326 | what was written opens under an engine version iff it is the writer's and configuration, version, file list and names are valid |
| RoundTrip.WrittenEnvelopeOpensTo | core/src/archive_directory.rs:59-107 | opening what was written finds the written header and, under each name, the file written under it |
| RoundTrip.TruncatedEnvelopeOpens | core/src/archive_directory.rs:249-256 | an envelope truncated inside its only file opens, and has a range that is there in a block that is not |
| RoundTrip.StandingFilesAreNeverRefused | core/src/archive_directory.rs:200-229 | inside a file that lies in the input, only ranges outside the file are refused |
| RoundTrip.HeldBytesAreNeverMissing | core/src/archive_directory.rs:200-266 | whatever a read of an archive's files has to fetch is there, whole blocks included |
| RoundTrip.ReadBack | core/src/archive_directory.rs:200-266 | one read returns exactly the range of its file's contents, or refuses a range outside it, whatever the cache holds |
| RoundTrip.ReadInSequence | core/src/archive_directory.rs:200-323 | any sequence of range reads on any files through one cache returns those ranges |
| RoundTrip.WrittenNamesOpenTheirFiles | core/src/archive_directory.rs:95-107 | opened by name, a written file is the one written under that name |
| RoundTrip.ReadWrittenFiles | core/src/archive_directory.rs:200-323 | any sequence of range reads over the files as the writer laid them out returns the ranges that were written, whatever their names |
| RoundTrip.WriteOpenAndRead | core/src/index.rs:155-226 | write, open, find files by name, read: the header is the one written, and any sequence of range reads returns the ranges that were written |
| RoundTrip.WrittenFilesReadBackConcurrently | core/src/archive_directory.rs:200-323 | under every interleaving a finished read reports the bytes its file had when written, or a range outside the file, or a failure that the input did cause |
| RoundTrip.WrittenFilesReadBackExactly | core/src/archive_directory.rs:200-323 | while the input does not fail, under every interleaving each finished read returns exactly the range written |
| BatchRead.SliceReader.Pread | core/src/io.rs:154-172 | fills every request with exactly its bytes, or fails iff some range is missing |
| BatchRead.ConsumePending | core/src/storage.rs:271-274 | hands the pending files on in order, stopping at the first refusal |
| BatchRead.ReadArchiveFileBatch | core/src/storage.rs:253-275 | one positional read for the whole batch; the result is that of reading its files one by one |
| BatchRead.MakeRoom | core/src/storage.rs:224-230 | flushes exactly when the next file would break a limit, and sends the pending run as one batch then |
| BatchRead.SaturationIsExact | core/src/storage.rs:224-226 | the saturating test is the limit test: saturation never hides that a limit is broken |
| BatchRead.LimitsAre | core/src/storage.rs:224-226 | a batch is one file, or at most 64 ranges and 64 MiB; it is full when one more file would break that |
| BatchRead.RefusalFails | core/src/storage.rs:271-274 | the first file the consumer refuses fails the whole |
| BatchRead.PendingGrows | core/src/storage.rs:224-237 | a file that still fits keeps both limits when it is added |
| BatchRead.ReadArchiveFilesWith | core/src/storage.rs:202-245 | equals reading file by file in order; the batches partition the files, each has at most 64 ranges and 64 MiB or is one file, and none was closed while the next file fitted |
| BatchRead.EveryFileIsConsumedOnce | core/src/storage.rs:202-245 | with an unfailing consumer, output `i` is the consumer's answer to name `i` and contents `i` |
| OrderedFold.ParseAllPermuted | core/src/config.rs:61-75 | reordering entries reorders what they parse to and changes no success |
| OrderedFold.FoldIsOrderIndependent | core/src/tokenizer.rs:80-141 | pairwise commuting assignments give one result in every order |
| Dedup.DedupedKeepsFirstOccurrences | core/src/config.rs:184-192 | the result has the same elements, each once, ordered by first occurrence |
| Dedup.FirstOccurrenceOrderIsUnique | core/src/config.rs:184-192 | those three facts determine the result |
| Dedup.DedupPreserveOrder | core/src/config.rs:184-192 | the loop with a seen-set computes the deduplicated list |
| TokenizerOptions.FromOptions | core/src/tokenizer.rs:80-141 | the loop returns the first error or the validated fold of all entries |
| OptionMeaning.FromOptionsConfigures | core/src/tokenizer.rs:80-141 | it gives exactly the configuration whose fourteen fields are what the last entry under their literal keys says, or their default, iff all values are readable and the configuration is consistent |
| OptionMeaning.NumeralsParse | core/src/tokenizer.rs:185-194 | a number option takes exactly decimal digits, with or without a plus sign, up to 64 bits, and means their value |
| OptionMeaning.FlagsParse | core/src/tokenizer.rs:196-206 | a flag option takes exactly "true" and "false", and means them |
| OptionMeaning.KindsParse | core/src/tokenizer.rs:163-179 | the eight tokenizers by their names |
| OptionMeaning.KeySpellings | core/src/tokenizer.rs:82-83 | keys are compared without one namespace and outer blanks and in lower case |
| OptionMeaning.ConsistentIff | core/src/tokenizer.rs:143-160 | which configurations are consistent, and which option is blamed for the others |
| TokenizerOptions.CompetitorsDisagree | core/src/tokenizer.rs:84-136 | two assignments fail to commute exactly when they write different values to one field |
| TokenizerOptions.OrderIrrelevantIffNoneCompete | core/src/tokenizer.rs:84-136 | the assignments of parsed settings give one result in all orders iff no two compete |
| TokenizerOptions.FromOptionsIgnoresOrder | core/src/tokenizer.rs:80-141 | without competing entries success and configuration do not depend on the visiting order |
| TokenizerOptions.OrderNeverMattersIffNoEntriesCompete | core/src/tokenizer.rs:80-141 | where one order of the entries succeeds, all orders have its outcome iff no two entries compete |
| TokenizerOptions.CompetingEntriesDependOnOrder | core/src/tokenizer.rs:80-141 | any entries of which two compete have two orders that never agree on a configuration |
| TokenizerOptions.CompetingEntriesShareAnOption | core/src/tokenizer.rs:82-136 | entries compete only if their keys name the same option, all spellings counted as one |
| TokenizerOptions.SpellingsOfStemCompete | core/src/tokenizer.rs:82-83 | the plain and the namespaced spelling of one option: both orders succeed, with different configurations |
| IndexConfig.Validate | core/src/config.rs:119-137 | complains about exactly the first violated rule |
| IndexConfig.FromOptions | core/src/config.rs:56-86 | the loop and the assembly after it return the validated outcome of both folds |
| OptionMeaning.FieldOptionsConfigure | core/src/config.rs:56-86 | it gives exactly the configuration whose row id and text fields are what the last entries under their literal keys say, or "row_id" and "text", iff all values are readable and the names are clean |
| OptionMeaning.FieldKeySpellings | core/src/config.rs:150-158 | field keys are the tokenizer's with dashes for underscores |
| OptionMeaning.ConfigIsConsistentIff | core/src/config.rs:119-137 | which index configurations are valid, and which option is blamed for the others |
| IndexConfig.ChosenFieldsNeverEmpty | core/src/config.rs:76-84 | whatever parses chooses at least one field |
| IndexConfig.ConfiguredFieldsAreClean | core/src/config.rs:56-137 | configured fields are non-empty, distinct, not blank and not the row id field |
| IndexConfig.FromOptionsIgnoresOrder | core/src/config.rs:56-86 | without competing tokenizer entries and disputed fields, success and configuration do not depend on the visiting order |
| IndexConfig.OrderNeverMattersIff | core/src/config.rs:56-86 | where one order succeeds, all orders have its outcome iff no tokenizer entries compete and no row ids, field lists or, without a list, single fields are in dispute |
| IndexConfig.DisputesDependOnOrder | core/src/config.rs:61-80 | any entries with two in dispute have two orders that never agree on a configuration |
| IndexConfig.SpellingsOfColumnsDispute | core/src/config.rs:61-75 | two spellings of the field list: both orders succeed, with different fields |
| DocSets.ListCursorIsSetCursor | core/src/index.rs:1155-1186 | a list cursor is a cursor over a set: current is the least left, advance removes it, seek removes what is below the target |
| DocSets.ValidDocsIff | core/src/index.rs:1138-1163 | documents are distinct, ascending and below 2147483647, the end marker |
| DocSets.RunNeverGoesBack | core/src/index.rs:1155-1186 | over any run of advances and seeks documents never decrease and the end is final |
| DocSets.PartitionPoint | core/src/index.rs:1169-1169 | the binary search finds the boundary of "below target" |
| DocSets.SortedDocSet.Advance | core/src/index.rs:1156-1163 | drops the current document and returns the next, or the end for ever |
| DocSets.SortedDocSet.Seek | core/src/index.rs:1165-1173 | lands where the contract's seek lands, never backwards |
| DocSets.SortedDocSet.SizeHint | core/src/index.rs:1179-1185 | the exact number of documents left, never cut by the 32-bit conversion |
| FuzzyScorer.ReadAllBlocks | core/src/index.rs:1112-1119 | the block loop appends all postings of a term |
| FuzzyScorer.CollectDocs | core/src/index.rs:1104-1122 | strictly ascending documents, exactly the union of the postings of the first terms up to the cap |
| FuzzyScorer.CappedUnionIs | core/src/index.rs:1104-1108 | the capped union has the documents of the first `max_expansions` terms and no others |
| FuzzyScorer.PostingsAre | core/src/index.rs:1112-1119 | a document is in a term's postings iff one of its blocks has it |
| FuzzyScorer.Canonical | core/src/index.rs:1121-1122 | sort and dedup give the ascending list of the same set |
| FuzzyScorer.AscendingListIsUnique | core/src/index.rs:1121-1122 | that list is the only one |
| FuzzyScorer.CapIsMonotone | core/src/index.rs:1108-1108 | a larger cap only adds documents, and none is lost once it covers all terms |
| Utf8.LengthFollowsCodePoint | core/src/tokenizer/icu.rs:95-95 | one byte, the code point itself, up to U+007F; two up to U+07FF; three up to U+FFFF; four above (section 3 of RFC 3629) |
| Utf8.BytesInRange | core/src/index.rs:864-872 | the ranges of first and later bytes (section 4 of RFC 3629) |
| Utf8.CodePointReadsBack | core/src/index.rs:864-872 | the code point is put together again from the bits of the bytes |
| Utf8.AsciiIsItsOwnEncoding | core/src/tokenizer/icu.rs:95-95 | ASCII text is its own encoding |
| Utf8.BytePrefixIsCharPrefix | core/src/index.rs:1215-1223 | encoded text starts with encoded text iff the characters do (section 3 of RFC 3629) |
| Utf8.PrefixTestComparesChars | core/src/index.rs:864-872 | the byte test compares the first `prefix_length` characters, also past the token's end |
| FuzzyAutomaton.RunIsAProduct | core/src/index.rs:1199-1224 | after any bytes the state pairs the automaton's state with how the bytes compare to the prefix |
| FuzzyAutomaton.MatchIsExact | core/src/index.rs:1206-1209 | `is_match` iff the automaton accepts and the bytes start with the prefix |
| FuzzyAutomaton.PruningIsSafe | core/src/index.rs:1211-1213 | from a state that cannot match no continuation matches |
| FuzzyAutomaton.SearchGoesOnIff | core/src/index.rs:1211-1213 | the search goes on exactly while the automaton is not in state 0 and the bytes agree with the prefix |
| FuzzyAutomaton.SearchIsFilter | core/src/index.rs:1103-1103 | the pruned trie search yields exactly the accepted terms with the prefix, in order |
| FuzzyAutomaton.TermsAreMarkedPaths | core/src/index.rs:1103-1103 | the terms of a dictionary are exactly the paths to its marked nodes |
| FuzzyAutomaton.TermsAreOrdered | core/src/index.rs:1103-1108 | dictionary terms come in strict byte order, so the first ones are well defined |
| PhraseText.TwoPassesEscapeEachCharOnce | core/src/index.rs:611-611 | the two replacements escape every backslash and quote once |
| PhraseText.PhraseRoundTrip | core/src/index.rs:611-616 | a reader of the quoted text recovers exactly the terms and stops before the suffix |
| PhraseText.SlopReadsBack | core/src/index.rs:612-616 | the suffix is absent for slop 0 and otherwise reads back as the slop |
| PhraseText.PhraseReadsBack | core/src/index.rs:611-616 | the query text of a phrase, read as a whole, gives back its terms and its slop |
| QueryCompiler.TokenCompilesTo | core/src/index.rs:844-882 | the distance asked for, or 0, 1, 2 for up to two, up to five, more characters; prefix and cap of a fuzzy term; distances above 2 are refused |
| QueryCompiler.BoostIsAppliedIff | core/src/index.rs:827-827 | a boost is applied iff it is more than 1/8388608 from 1 |
| QueryCompiler.ResolvesTo | core/src/index.rs:731-758 | a column resolves to its trimmed name, a blank or absent one to the only configured field; it must be configured and in the schema |
| QueryCompiler.FieldsAreListedOnce | core/src/config.rs:107-110 | the searched fields are the configured ones, each once, in order |
| QueryCompiler.MatchCompilesWhen | core/src/index.rs:534-564 | a match compiles iff options and boost are in range and its fields resolve |
| QueryCompiler.MultiMatchCompilesWhen | core/src/index.rs:565-598 | a multi-match compiles iff columns are given and resolve, boosts are none or one each and positive, options are in range |
| QueryCompiler.PhraseCompilesTo | core/src/index.rs:599-620 | a phrase compiles to its quoted text in the resolved field, iff positions are indexed and the engine takes the text |
| QueryCompiler.BooleanCompilesWhen | core/src/index.rs:621-662 | a boolean query compiles iff some clause is not prohibited and all clauses compile |
| QueryCompiler.BoostCompilesTo | core/src/index.rs:663-675 | a demotion compiles iff its factor lies in 0 to 1 and both sides compile |
| QueryCompiler.BuildClauses | core/src/index.rs:640-659 | clauses compile in order with their tags; the list compiles iff each does |
| QueryCompiler.CompilesIffValid | core/src/index.rs:528-729 | compilation succeeds iff validity holds on every nested node |
| QueryCompiler.ColumnlessMatchSearchesAllFieldsIff | core/src/index.rs:760-778 | a match without a column searches all fields iff their names have no outer blanks and are in the schema |
| QueryCompiler.PaddedFieldNameIsNotFound | core/src/index.rs:731-778 | a valid configuration under which such a match fails |
| QueryMeaning.SearchFindsSimilarTexts | core/src/index.rs:1068-1083 | expansion finds exactly the similar terms that share the token's first characters |
| QueryMeaning.FieldKeepsMeaning | core/src/index.rs:788-831 | one field's query means any token or all tokens, for no token, one or several, boosted or not |
| QueryMeaning.MergedClausesMean | core/src/index.rs:640-659 | merging the four clause lists keeps the meaning of a boolean query |
| QueryMeaning.CompilationKeepsMeaning | core/src/index.rs:528-676 | the compiled tree matches exactly the documents the query means; a phrase means its terms and slop, read back from the text |
| QueryScores.ScoringKeepsDocs | core/src/index.rs:930-944 | with scoring on or off the documents are the same |
| QueryScores.BoostMultipliesScore | core/src/index.rs:959-965 | the boost handed to a scorer multiplies every score, through any nesting |
| QueryScores.ExplanationIsScore | core/src/index.rs:967-984 | an explanation exists exactly at matching documents and equals the score of a new scorer there |
| QueryScores.CompiledTokenScores | core/src/index.rs:844-882 | a token searched exactly scores its rank times the boost, a fuzzy one the boost alone |
| QueryScores.FieldKeepsScore | core/src/index.rs:788-831 | one field's score is the sum over its matching tokens, times the boost asked for unless that is within 1/8388608 of 1 |
| QueryScores.FieldBoostIsExactIff | core/src/index.rs:827-830 | the requested boost is what the score shows iff it is more than 1/8388608 from 1, or 1, or the score is zero |
| QueryScores.DroppedBoostShows | core/src/index.rs:827-830 | a query whose score misses its boost of 8388609/8388608 |
| QueryScores.MergedClausesWorth | core/src/index.rs:640-659 | merging the clause lists of a boolean query neither loses nor repeats a score: the merged sum is that of the separate lists |
| QueryScores.CompilationKeepsScores | core/src/index.rs:528-676 | at every document a query means, the compiled tree scores what the query says |
| Demotion.MovedFollows | core/src/index.rs:997-1008 | moving never makes the lagging cursor pass a document still to be asked about |
| Demotion.ProbeIsExact | core/src/index.rs:1026-1036 | the probe answers membership in the whole negative set, wherever the cursor stands |
| Demotion.ScoringIsExact | core/src/index.rs:1015-1023 | scoring tells the score of the current document, does not move it, and keeps the invariant |
| Demotion.ScoreIsHistoryIndependent | core/src/index.rs:991-1036 | after any advances, seeks and scores the position depends on the moves alone and the score on the document alone |
| DemoteScorers.DemoteScorer.constructor | core/src/index.rs:959-965 | wraps two scorers that share nothing |
| DemoteScorers.DemoteScorer.Advance | core/src/index.rs:998-1000 | moves the positive cursor in place and nothing else |
| DemoteScorers.DemoteScorer.Seek | core/src/index.rs:1002-1004 | moves the positive cursor in place and nothing else |
| DemoteScorers.DemoteScorer.Score | core/src/index.rs:1016-1023 | the objects end in the state, and with the score, that the value model gives |
| DemoteScorers.DemoteScorer.MatchesDoc | core/src/index.rs:1026-1036 | moves the cursor only when it is behind, and answers as the value model does |
| WeightScorers.ScorerIsExact | core/src/index.rs:958-965 | a new scorer stands before exactly the matching documents and scores them as the weight does |
| WeightScorers.ScoresSurviveAnyCalls | core/src/index.rs:991-1036 | whatever was called before, the current document matches and gets the weight's score |
| WeightScorers.CompiledQueryServesItsMeaning | core/src/index.rs:528-1036 | compiled, weighed and scored, a query serves exactly the documents it means, each with its worth, after any calls |
| WeightScorers.BuildScorer | core/src/index.rs:958-965 | builds fresh, unshared objects whose value is the weight's scorer |
| WeightScorers.CollectCapped | core/src/index.rs:1101-1124 | the capped scorer's vector is the ascending list of the weight's matching documents |
| WeightScorers.ExplainDoc | core/src/index.rs:967-984 | explaining with a new negative scorer, or by seeking, gives the specified explanation |
| TextOffsets.LenUtf8 | core/src/tokenizer/icu.rs:95-95 | the number of bytes of the character's UTF-8 encoding |
| TextOffsets.SliceIsSubstring | core/src/tokenizer/icu.rs:104-104 | a slice between the byte offsets of two characters is defined and is the text between them |
| WordSplitting.RunsAreTheMaximalOnes | core/src/tokenizer/icu.rs:91-98 | the runs of a segment are all its maximal alphanumeric runs and nothing else |
| WordSplitting.SpansAreExact | core/src/tokenizer/icu.rs:77-112 | tokens are exactly the segments with an alphanumeric, or the maximal runs of each segment, in text order |
| WordSplitting.AlphanumericsAreKeptOnce | core/src/tokenizer/icu.rs:77-112 | every alphanumeric character is in exactly one token |
| IcuTokens.CutAtDelimiter | core/src/tokenizer/icu.rs:91-98 | the character loop stops at the first delimiter and goes on behind it, in byte offsets |
| IcuTokens.IcuTokenStream.constructor | core/src/tokenizer/icu.rs:53-63 | a new stream has all tokens of the text ahead |
| IcuTokens.IcuTokenStream.TryCandidate | core/src/tokenizer/icu.rs:88-109 | takes the first token ahead, or passes over a stretch without one; always moves on |
| IcuTokens.IcuTokenStream.Advance | core/src/tokenizer/icu.rs:77-112 | terminates, delivers exactly the first token ahead, and stays false at the end |
| IcuTokens.IcuTokenStream.EditToken | core/src/tokenizer/icu.rs:118-120 | editing the current token changes nothing that is still to come |
| IcuTokens.Process | core/src/tokenizer/icu.rs:53-121 | a consumer that edits every token still receives exactly the tokens of the text |
| IcuTokens.TokensAreSlices | core/src/tokenizer/icu.rs:102-107 | token `i` has position `i`, is the slice at its own UTF-8 offsets, lies behind token `i - 1`, and holds an alphanumeric (only such, in split mode) |
| IcuTokens.AsciiOffsetsCountCharacters | core/src/tokenizer/icu.rs:95-107 | in ASCII text offsets are character indices and a token is as long as its text |

## Left out

- ConcurrentReads.SomeCallCanMove: some call can always move and every call is short, but which call is scheduled is free; lock fairness and poisoning are not modelled.
- BatchRead.ReadArchiveFilesWith: on failure it states the failure only, not which files were handed to the consumer before it, which batching changes.
- RoundTrip.OpenIndex: stops at the directory; opening the engine's index over it and registering the tokenizer are foreign code.
- Storage.ValidateHeader: tells success from failure but not which message a failure carries; the same holds for queries, where all rejections are one error.
- PhraseText.PhraseRoundTrip: reads the quoted text by the backslash rule; the rest of the engine's query grammar is a predicate on the text.
- QueryMeaning.CompilationKeepsMeaning: which documents hold a term or a parsed phrase, and the text analysis, are parameters.
- WeightScorers.ScorerIsExact: boolean, term and phrase scorers are objects known by their contract, with the score the engine promises; their own cursors are not modelled.
- The size hint and the document count that demotion forwards unchanged: easy members.
- TokenizerOptions.FromOptions: case mapping is an arbitrary function and the language name is not checked, as in the code.
- WeightScorers.ExplainDoc: goes through demotions, boosts and the capped weight; how the engine explains a boolean, term or phrase weight is its contract.
- Rounding and not-a-number beyond the finite and range checks: scores are reals.
- JSON: queries and headers start as values.
- The writer's document side, temporary directories, file listing, merging, commit and locks: engine and file system.
- The engine's posting formats, ranking formula, collectors, Roaring filters, Jieba, stemming and segmentation data: foreign code.
- Language bindings and command-line tools: wrappers.
