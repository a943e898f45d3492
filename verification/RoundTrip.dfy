/** From writing an index to concurrent range reads over it (the write and open paths of index.rs). */
module RoundTrip {
  import opened Base
  import opened Storage
  import opened Envelope
  import opened ReadPlan
  import opened ReadCache
  import opened ConcurrentReads
  import IndexConfig
  import Paths

  /** The tail of `FullTextIndexWriter::write`: lay the files out, then stream the envelope. */
  method WriteIndex(
    output: Output, codec: Codec, metadata: IndexConfig.Metadata, files: seq<IndexFile>, contents: seq<seq<byte>>)
    returns (r: Result<()>)
    modifies output
    ensures r.Ok? <==> TotalLength(files) <= U64_MAX && Writable(codec, WrittenHeader(metadata, files), contents)
    ensures r.Ok? ==> output.data == old(output.data) + EnvelopeBytes(codec, WrittenHeader(metadata, files), contents)
  {
    var entries := LayOut(files);
    if entries.Err? {
      return Err(entries.error);
    }
    r := WriteEnvelopeFromPaths(output, codec, IndexHeader(metadata, entries.value), contents);
  }

  /** What a reader needs to open an input: a well-formed envelope of its own engine version whose files fit. */
  predicate Openable(codec: Codec, input: seq<byte>, runtimeVersion: string) {
    && WellFormed(codec, input)
    && var header := codec.decode(input[16..16 + HeaderLength(input)]).value;
    && header.metadata.tantivyVersion == runtimeVersion
    && StartsFit(16 + HeaderLength(input), header.files, |header.files|)
  }

  /** `FullTextIndexReader::open` up to the directory it hands to the engine. */
  method OpenIndex(codec: Codec, input: seq<byte>, runtimeVersion: string) returns (r: Result<(IndexHeader, Directory)>)
    ensures r.Ok? <==> Openable(codec, input, runtimeVersion)
    ensures r.Ok? ==>
      && r.value.0.metadata.tantivyVersion == runtimeVersion
      && codec.decode(input[16..16 + HeaderLength(input)]) == Some(r.value.0)
      && r.value.1 == DirectoryOf(16 + HeaderLength(input), r.value.0.files)
  {
    var read := ReadHeader(codec, input);
    if read.Err? {
      return Err(read.error);
    }
    var (header, bodyStart) := read.value;
    if header.metadata.tantivyVersion != runtimeVersion {
      return Err(InvalidStorage);
    }
    var directory := OpenDirectory(bodyStart, header.files);
    if directory.Err? {
      return Err(directory.error);
    }
    r := Ok((header, directory.value));
  }

  /** A writer's input to an archive: sizes and contents that agree, within the limits of the format. */
  predicate Archivable(codec: Codec, metadata: IndexConfig.Metadata, files: seq<IndexFile>, contents: seq<seq<byte>>) {
    && TotalLength(files) <= U64_MAX
    && ContentsMatch(files, contents)
    && Writable(codec, WrittenHeader(metadata, files), contents)
    && |EnvelopeBytes(codec, WrittenHeader(metadata, files), contents)| <= U64_MAX
  }

  lemma {:induction false} WrittenStartsFit(codec: Codec, metadata: IndexConfig.Metadata, files: seq<IndexFile>, contents: seq<seq<byte>>)
    requires Archivable(codec, metadata, files, contents)
    ensures var header := WrittenHeader(metadata, files);
      StartsFit(16 + |codec.encode(header)|, header.files, |files|)
  {
    var header := WrittenHeader(metadata, files);
    LaidOutBodyLength(files, contents, |files|);
    forall i | 0 <= i < |files| ensures 16 + |codec.encode(header)| + header.files[i].offset <= U64_MAX {
      OffsetsAscend(files, i, |files|);
    }
  }

  /** What was written can be opened exactly by the engine version that wrote it, where configuration, version, file list
      and names are valid. */
  lemma {:induction false} WrittenIndexOpens(
    codec: Codec, metadata: IndexConfig.Metadata, files: seq<IndexFile>, contents: seq<seq<byte>>, runtimeVersion: string)
    requires Faithful(codec) && Archivable(codec, metadata, files, contents)
    ensures Openable(codec, EnvelopeBytes(codec, WrittenHeader(metadata, files), contents), runtimeVersion) <==>
      && runtimeVersion == metadata.tantivyVersion
      && IndexConfig.Valid(metadata.config) && Trim(metadata.tantivyVersion) != ""
      && files != [] && ValidNames(FileNames(files))
  {
    WrittenEnvelopeReadsBack(codec, WrittenHeader(metadata, files), contents);
    WrittenHeaderAcceptedIff(metadata, files);
    WrittenStartsFit(codec, metadata, files, contents);
  }

  /** The archive a reader sees after writing: the envelope and the ranges of its files. */
  function WrittenArchive(codec: Codec, metadata: IndexConfig.Metadata, files: seq<IndexFile>, contents: seq<seq<byte>>): (r: Archive)
    requires Archivable(codec, metadata, files, contents)
  {
    WrittenStartsFit(codec, metadata, files, contents);
    var header := WrittenHeader(metadata, files);
    Archive(EnvelopeBytes(codec, header, contents), FilesOf(16 + |codec.encode(header)|, header.files))
  }

  lemma {:induction false} ReadOfStandingFile(input: seq<byte>, file: ArchivedFile, content: seq<byte>, a: usize, b: usize, bytes: seq<byte>)
    requires |content| == file.length && StandsAt(content, file.start, input)
    requires Exactly(input, file, a, b, bytes)
    ensures a <= b <= |content| && bytes == content[a..b]
  {
    SliceOfSlice(input, file.start, |content|, a, b);
  }

  /** Inside a file that lies within the input no position overflows, so no valid range is refused. */
  lemma {:induction false} StandingFilesAreNeverRefused(input: seq<byte>, file: ArchivedFile, content: seq<byte>, a: usize, b: usize)
    requires |input| <= U64_MAX && |content| == file.length && StandsAt(content, file.start, input)
    ensures PlanRead(file, a, b).Refuse? <==> a > b || b > |content|
  {
  }

  /** Truncated five bytes into its only file, an envelope still opens; a range of that file is there, its block is not. */
  lemma {:induction false} TruncatedEnvelopeOpens(codec: Codec, metadata: IndexConfig.Metadata, body: seq<byte>)
    requires Faithful(codec) && |body| == 5
    requires IndexConfig.Valid(metadata.config) && Trim(metadata.tantivyVersion) != ""
    requires |codec.encode(IndexHeader(metadata, [ArchiveFileEntry("a", 0, 10)]))| <= MAX_HEADER_BYTES
    ensures var header := IndexHeader(metadata, [ArchiveFileEntry("a", 0, 10)]);
      var input := HeaderBytes(codec, header) + body;
      var file := ArchivedFile(16 + |codec.encode(header)|, 10);
      && Openable(codec, input, metadata.tantivyVersion)
      && 16 + HeaderLength(input) == file.start
      && DirectoryOf(file.start, header.files) == map[Paths.Components("a") := file]
      && Pread(input, file.start, 5) == Some(body)
      && InputMissing(PlanRead(file, 0, 5), input, map[])
  {
    var entries := [ArchiveFileEntry("a", 0, 10)];
    var header := IndexHeader(metadata, entries);
    var input := HeaderBytes(codec, header) + body;
    hide PlanRead, IndexConfig.Valid, Trim, Paths.Components, HeaderBytes;
    OneFileIsAccepted(entries);
    HeaderBytesReadBack(codec, header, body);
    ReadableRangeCanBeMissing(input, ArchivedFile(16 + |codec.encode(header)|, 10));
    assert input[16 + |codec.encode(header)|..] == body;
    assert DirectoryUpTo(16 + |codec.encode(header)|, entries, 0) == map[];
  }

  lemma {:induction false} OneFileIsAccepted(entries: seq<ArchiveFileEntry>)
    requires entries == [ArchiveFileEntry("a", 0, 10)]
    ensures FilesAccepted(entries)
  {
    Paths.SlashFreeNameIsPlain("a");
    hide Paths.PlainName;
  }

  /** The archive's files hold exactly `contents`. */
  predicate Holds(a: Archive, contents: seq<seq<byte>>) {
    && |a.input| <= U64_MAX
    && |contents| == |a.files|
    && forall i :: 0 <= i < |a.files| ==> |contents[i]| == a.files[i].length && StandsAt(contents[i], a.files[i].start, a.input)
  }

  /** What the file's contents answer to a range. */
  function Answered(contents: seq<seq<byte>>, file: nat, from: nat, to: nat): (r: Outcome)
    requires file < |contents|
  {
    if from <= to <= |contents[file]| then Bytes(contents[file][from..to]) else BadRange
  }

  /** Whatever a read of held files has to fetch, the input holds: a whole block, or the range itself. */
  lemma {:induction false} HeldBytesAreNeverMissing(a: Archive, contents: seq<seq<byte>>, i: nat, from: usize, to: usize)
    requires Holds(a, contents) && i < |a.files|
    ensures var plan := PlanRead(a.files[i], from, to);
      && (plan.Direct? || plan.Block? ==> Pread(a.input, plan.pos, plan.length).Some?)
      && forall blocks: map<u64, seq<byte>> :: !InputMissing(plan, a.input, blocks)
  {
    hide PlanRead;
    PlansAreForTheRange(a.files[i], from, to);
    if PlanRead(a.files[i], from, to).Block? {
      PlannedBlockCoversTheRange(a.files[i], from, to);
    }
    assert StandsAt(contents[i], a.files[i].start, a.input);
  }

  /** A finished call reports what the contents answer, unless the input did fail it. */
  predicate Reports(contents: seq<seq<byte>>, call: Call, outcome: Outcome) {
    && call.file < |contents|
    && (outcome == Answered(contents, call.file, call.a, call.b)
        || (outcome.ReadFailed? && call.inputFailed && call.a < call.b <= |contents[call.file]|))
  }

  lemma {:induction false} TruthfulReportsContents(a: Archive, contents: seq<seq<byte>>, call: Call, outcome: Outcome)
    requires Holds(a, contents) && call.file < |a.files| && Truthful(a, call, outcome)
    ensures Reports(contents, call, outcome)
  {
    var file, content := a.files[call.file], contents[call.file];
    match outcome {
      case Bytes(bytes) => ReadOfStandingFile(a.input, file, content, call.a, call.b, bytes);
      case BadRange => StandingFilesAreNeverRefused(a.input, file, content, call.a, call.b);
      case ReadFailed => HeldBytesAreNeverMissing(a, contents, call.file, call.a, call.b);
    }
  }

  /** One read of a held file, alone: exactly its contents, whatever true blocks the cache holds already. */
  method ReadBack(handle: ArchiveFileHandle, from: usize, to: usize, ghost a: Archive, ghost contents: seq<seq<byte>>, ghost i: nat)
    returns (r: Outcome)
    requires handle.cache.Valid() && handle.Shares() && Coherent(a, handle.cache.blocks)
    requires Disjoint(a.files) && Holds(a, contents)
    requires i < |a.files| && a.files[i] == handle.file && a.input == handle.input.data
    modifies handle.cache, handle.cache.metrics
    ensures handle.cache.Valid() && Coherent(a, handle.cache.blocks)
    ensures r == Answered(contents, i, from, to)
  {
    r := handle.ReadBytes(from, to, a, i);
    HeldBytesAreNeverMissing(a, contents, i, from, to);
    StandingFilesAreNeverRefused(a.input, a.files[i], contents[i], from, to);
    if r.Bytes? {
      ReadOfStandingFile(a.input, a.files[i], contents[i], from, to, r.bytes);
    }
  }

  datatype RangeRead = RangeRead(file: nat, from: usize, to: usize)

  /** The outcomes so far are what the contents answer to the first ranges. */
  ghost predicate AllAnswered(contents: seq<seq<byte>>, ranges: seq<RangeRead>, outcomes: seq<Outcome>) {
    && |outcomes| <= |ranges|
    && forall k :: 0 <= k < |outcomes| ==>
      ranges[k].file < |contents| && outcomes[k] == Answered(contents, ranges[k].file, ranges[k].from, ranges[k].to)
  }

  lemma {:induction false} OneMoreAnswered(contents: seq<seq<byte>>, ranges: seq<RangeRead>, outcomes: seq<Outcome>, last: Outcome)
    requires AllAnswered(contents, ranges, outcomes) && |outcomes| < |ranges|
    requires var r := ranges[|outcomes|]; r.file < |contents| && last == Answered(contents, r.file, r.from, r.to)
    ensures AllAnswered(contents, ranges, outcomes + [last])
  {
  }

  /** Any sequence of range reads through one cache, one after another: each returns that range of its file. */
  method ReadInSequence(a: Archive, ranges: seq<RangeRead>, ghost contents: seq<seq<byte>>) returns (outcomes: seq<Outcome>)
    requires Disjoint(a.files) && Holds(a, contents)
    requires forall k :: 0 <= k < |ranges| ==> ranges[k].file < |a.files|
    ensures |outcomes| == |ranges| && AllAnswered(contents, ranges, outcomes)
  {
    var metrics := new ReadMetrics();
    var cache := new ArchiveReadCache(metrics);
    var input := new MeteredInput(a.input, metrics);
    assert Coherent(a, cache.blocks) && |contents| == |a.files|;
    hide AllAnswered, Answered, Disjoint, Holds, Coherent;
    outcomes := [];
    NothingAnswered(contents, ranges);
    for n := 0 to |ranges|
      invariant fresh(cache) && fresh(metrics) && cache.metrics == metrics && cache.Valid() && Coherent(a, cache.blocks)
      invariant |outcomes| == n && AllAnswered(contents, ranges, outcomes)
    {
      var r := ranges[n];
      var handle := new ArchiveFileHandle(input, cache, a.files[r.file]);
      var outcome := ReadBack(handle, r.from, r.to, a, contents, r.file);
      OneMoreAnswered(contents, ranges, outcomes, outcome);
      outcomes := outcomes + [outcome];
    }
  }

  lemma {:induction false} NothingAnswered(contents: seq<seq<byte>>, ranges: seq<RangeRead>)
    ensures AllAnswered(contents, ranges, [])
  {
  }

  lemma {:induction false} StandingEntriesHold(input: seq<byte>, bodyStart: u64, entries: seq<ArchiveFileEntry>, contents: seq<seq<byte>>)
    requires |input| <= U64_MAX && StartsFit(bodyStart, entries, |entries|) && AllStand(entries, contents, bodyStart, input)
    ensures Holds(Archive(input, FilesOf(bodyStart, entries)), contents)
  {
  }

  lemma {:induction false} WrittenArchiveHolds(
    codec: Codec, metadata: IndexConfig.Metadata, files: seq<IndexFile>, contents: seq<seq<byte>>)
    requires Archivable(codec, metadata, files, contents)
    ensures Holds(WrittenArchive(codec, metadata, files, contents), contents)
  {
    hide AllStand, Holds, StandsAt, Body, FilesOf;
    var header := WrittenHeader(metadata, files);
    WrittenStartsFit(codec, metadata, files, contents);
    WrittenFilesStand(codec, metadata, files, contents);
    StandingEntriesHold(EnvelopeBytes(codec, header, contents), 16 + |codec.encode(header)|, header.files, contents);
  }

  lemma {:induction false} WrittenArchiveIsDisjoint(
    codec: Codec, metadata: IndexConfig.Metadata, files: seq<IndexFile>, contents: seq<seq<byte>>)
    requires Archivable(codec, metadata, files, contents) && files != [] && ValidNames(FileNames(files))
    ensures Disjoint(WrittenArchive(codec, metadata, files, contents).files)
  {
    LayoutIsAccepted(files);
    WrittenStartsFit(codec, metadata, files, contents);
    AcceptedFilesAreNotAliased(16 + |codec.encode(WrittenHeader(metadata, files))|, Layout(files));
  }

  /** Opened by name, a written file is the file that was written under that name. */
  lemma {:induction false} WrittenNamesOpenTheirFiles(
    codec: Codec, metadata: IndexConfig.Metadata, files: seq<IndexFile>, contents: seq<seq<byte>>, i: nat)
    requires Archivable(codec, metadata, files, contents) && i < |files| && DistinctPaths(Layout(files))
    ensures var header := WrittenHeader(metadata, files);
      var bodyStart := 16 + |codec.encode(header)|;
      && StartsFit(bodyStart, header.files, |files|)
      && var directory := DirectoryOf(bodyStart, header.files);
      && KeyOf(header.files[i]) in directory
      && directory[KeyOf(header.files[i])] == WrittenArchive(codec, metadata, files, contents).files[i]
  {
    WrittenStartsFit(codec, metadata, files, contents);
    NamesOpenTheirFiles(16 + |codec.encode(WrittenHeader(metadata, files))|, Layout(files), i);
  }

  lemma {:induction false} WrittenArchiveIsServed(
    codec: Codec, metadata: IndexConfig.Metadata, files: seq<IndexFile>, contents: seq<seq<byte>>)
    requires Archivable(codec, metadata, files, contents) && files != [] && ValidNames(FileNames(files))
    ensures Holds(WrittenArchive(codec, metadata, files, contents), contents)
    ensures Disjoint(WrittenArchive(codec, metadata, files, contents).files)
  {
    WrittenArchiveHolds(codec, metadata, files, contents);
    WrittenArchiveIsDisjoint(codec, metadata, files, contents);
  }

  /** End to end without the directory: any sequence of range reads over what was written returns the ranges written. */
  method ReadWrittenFiles(codec: Codec, metadata: IndexConfig.Metadata, files: seq<IndexFile>, contents: seq<seq<byte>>, ranges: seq<RangeRead>)
    returns (outcomes: seq<Outcome>)
    requires Archivable(codec, metadata, files, contents) && files != [] && ValidNames(FileNames(files))
    requires forall k :: 0 <= k < |ranges| ==> ranges[k].file < |files|
    ensures |outcomes| == |ranges|
    ensures forall k :: 0 <= k < |ranges| ==>
      outcomes[k] == if ranges[k].from <= ranges[k].to <= |contents[ranges[k].file]|
                     then Bytes(contents[ranges[k].file][ranges[k].from..ranges[k].to]) else BadRange
  {
    WrittenArchiveIsServed(codec, metadata, files, contents);
    outcomes := ReadInSequence(WrittenArchive(codec, metadata, files, contents), ranges, contents);
  }

  // ---- Write, open, look up, read ----

  /** `ArchiveDirectory::file` for every name. */
  method LookUp(directory: Directory, names: seq<string>) returns (files: seq<ArchivedFile>)
    requires forall i :: 0 <= i < |names| ==> Paths.Components(names[i]) in directory
    ensures |files| == |names| && forall i :: 0 <= i < |names| ==> files[i] == directory[Paths.Components(names[i])]
  {
    files := [];
    for n := 0 to |names|
      invariant |files| == n && forall i :: 0 <= i < n ==> files[i] == directory[Paths.Components(names[i])]
    {
      files := files + [directory[Paths.Components(names[n])]];
    }
  }

  /** Each name leads to its file. */
  predicate FoundByName(directory: Directory, files: seq<IndexFile>, found: seq<ArchivedFile>) {
    && |found| == |files|
    && forall i :: 0 <= i < |files| ==>
      Paths.Components(files[i].name) in directory && directory[Paths.Components(files[i].name)] == found[i]
  }

  /** `header` and `directory` are what opening an input gives. */
  predicate OpensTo(codec: Codec, input: seq<byte>, runtimeVersion: string, header: IndexHeader, directory: Directory) {
    && Openable(codec, input, runtimeVersion)
    && codec.decode(input[16..16 + HeaderLength(input)]) == Some(header)
    && directory == DirectoryOf(16 + HeaderLength(input), header.files)
  }

  /** What opening a written envelope finds: the header, and under each name the file written under it. */
  lemma {:induction false} WrittenEnvelopeOpensTo(
    codec: Codec, metadata: IndexConfig.Metadata, files: seq<IndexFile>, contents: seq<seq<byte>>, header: IndexHeader, directory: Directory)
    requires Faithful(codec) && Archivable(codec, metadata, files, contents)
    requires ValidNames(FileNames(files)) && forall i :: 0 <= i < |files| ==> '/' !in files[i].name
    requires OpensTo(codec, EnvelopeBytes(codec, WrittenHeader(metadata, files), contents), metadata.tantivyVersion, header, directory)
    ensures header == WrittenHeader(metadata, files)
    ensures FoundByName(directory, files, WrittenArchive(codec, metadata, files, contents).files)
  {
    OpenedHeader(codec, metadata, files, contents, header, directory);
    LaidOutNamesAreDistinctPaths(files);
    assert header.files == Layout(files);
    LaidOutNamesAreFound(16 + |codec.encode(header)|, files);
    hide OpensTo, FoundByName, DistinctPaths, DirectoryOf, EnvelopeBytes, Layout, StartsFit;
  }

  lemma {:induction false} OpenedHeader(
    codec: Codec, metadata: IndexConfig.Metadata, files: seq<IndexFile>, contents: seq<seq<byte>>, header: IndexHeader, directory: Directory)
    requires Faithful(codec) && Archivable(codec, metadata, files, contents)
    requires OpensTo(codec, EnvelopeBytes(codec, WrittenHeader(metadata, files), contents), metadata.tantivyVersion, header, directory)
    ensures header == WrittenHeader(metadata, files)
    ensures StartsFit(16 + |codec.encode(header)|, header.files, |header.files|)
    ensures directory == DirectoryOf(16 + |codec.encode(header)|, header.files)
  {
    hide WellFormed, DirectoryOf, EnvelopeBytes, StartsFit;
    WrittenEnvelopeReadsBack(codec, WrittenHeader(metadata, files), contents);
    WrittenStartsFit(codec, metadata, files, contents);
  }

  lemma {:induction false} LaidOutNamesAreFound(bodyStart: u64, files: seq<IndexFile>)
    requires TotalLength(files) <= U64_MAX && DistinctPaths(Layout(files)) && StartsFit(bodyStart, Layout(files), |files|)
    ensures FoundByName(DirectoryOf(bodyStart, Layout(files)), files, FilesOf(bodyStart, Layout(files)))
  {
    var entries := Layout(files);
    assert forall i :: 0 <= i < |files| ==> entries[i].name == files[i].name;
    hide DistinctPaths, DirectoryOf, Layout, Paths.Components, FilesOf;
    forall i | 0 <= i < |files|
      ensures KeyOf(entries[i]) in DirectoryOf(bodyStart, entries)
        && DirectoryOf(bodyStart, entries)[KeyOf(entries[i])] == FilesOf(bodyStart, entries)[i]
    {
      NamesOpenTheirFiles(bodyStart, entries, i);
    }
  }

  lemma {:induction false} LaidOutNamesAreDistinctPaths(files: seq<IndexFile>)
    requires TotalLength(files) <= U64_MAX && ValidNames(FileNames(files))
    requires forall i :: 0 <= i < |files| ==> '/' !in files[i].name
    ensures DistinctPaths(Layout(files))
  {
    hide DistinctPaths;
    assert NamesOf(Layout(files)) == FileNames(files);
    SlashFreeNamesAreDistinctPaths(Layout(files));
  }

  method WriteAndOpen(codec: Codec, metadata: IndexConfig.Metadata, files: seq<IndexFile>, contents: seq<seq<byte>>)
    returns (input: seq<byte>, header: IndexHeader, directory: Directory)
    requires Faithful(codec) && Archivable(codec, metadata, files, contents)
    requires IndexConfig.Valid(metadata.config) && Trim(metadata.tantivyVersion) != ""
    requires files != [] && ValidNames(FileNames(files)) && forall i :: 0 <= i < |files| ==> '/' !in files[i].name
    ensures header == WrittenHeader(metadata, files)
    ensures input == WrittenArchive(codec, metadata, files, contents).input
    ensures FoundByName(directory, files, WrittenArchive(codec, metadata, files, contents).files)
  {
    WrittenIndexOpens(codec, metadata, files, contents, metadata.tantivyVersion);
    assert WrittenArchive(codec, metadata, files, contents).input == EnvelopeBytes(codec, WrittenHeader(metadata, files), contents);
    hide Archivable, Faithful, IndexConfig.Valid, Trim, ValidNames, Paths.Components, FoundByName, WrittenArchive;
    input := WriteAll(codec, metadata, files, contents);
    header, directory := OpenWritten(codec, metadata, files, contents, input);
  }

  method WriteAll(codec: Codec, metadata: IndexConfig.Metadata, files: seq<IndexFile>, contents: seq<seq<byte>>) returns (input: seq<byte>)
    requires Archivable(codec, metadata, files, contents)
    ensures input == EnvelopeBytes(codec, WrittenHeader(metadata, files), contents)
  {
    ghost var envelope := EnvelopeBytes(codec, WrittenHeader(metadata, files), contents);
    hide EnvelopeBytes, Writable;
    var output := new Output();
    var written := WriteIndex(output, codec, metadata, files, contents);
    assert [] + envelope == envelope;
    input := output.data;
  }

  method OpenWritten(codec: Codec, metadata: IndexConfig.Metadata, files: seq<IndexFile>, contents: seq<seq<byte>>, input: seq<byte>)
    returns (header: IndexHeader, directory: Directory)
    requires Faithful(codec) && Archivable(codec, metadata, files, contents)
    requires ValidNames(FileNames(files)) && forall i :: 0 <= i < |files| ==> '/' !in files[i].name
    requires input == EnvelopeBytes(codec, WrittenHeader(metadata, files), contents)
    requires Openable(codec, input, metadata.tantivyVersion)
    ensures header == WrittenHeader(metadata, files)
    ensures FoundByName(directory, files, WrittenArchive(codec, metadata, files, contents).files)
  {
    hide Openable, EnvelopeBytes, Faithful, ValidNames, FoundByName, WrittenArchive;
    var index := OpenIndex(codec, input, metadata.tantivyVersion);
    header, directory := index.value.0, index.value.1;
    WrittenEnvelopeOpensTo(codec, metadata, files, contents, header, directory);
  }

  /** End to end, one read after another: an index is written, opened by the same engine version, its files are found by
      name, and any sequence of range reads returns the ranges that were written. */
  method WriteOpenAndRead(codec: Codec, metadata: IndexConfig.Metadata, files: seq<IndexFile>, contents: seq<seq<byte>>, ranges: seq<RangeRead>)
    returns (header: IndexHeader, outcomes: seq<Outcome>)
    requires Faithful(codec) && Archivable(codec, metadata, files, contents)
    requires IndexConfig.Valid(metadata.config) && Trim(metadata.tantivyVersion) != ""
    requires files != [] && ValidNames(FileNames(files)) && forall i :: 0 <= i < |files| ==> '/' !in files[i].name
    requires forall k :: 0 <= k < |ranges| ==> ranges[k].file < |files|
    ensures header == WrittenHeader(metadata, files) && |outcomes| == |ranges|
    ensures forall k :: 0 <= k < |ranges| ==>
      outcomes[k] == if ranges[k].from <= ranges[k].to <= |contents[ranges[k].file]|
                     then Bytes(contents[ranges[k].file][ranges[k].from..ranges[k].to]) else BadRange
  {
    hide Archivable, WrittenArchive, Disjoint, Holds, Faithful, IndexConfig.Valid, Trim, ValidNames, Paths.Components;
    var input, directory;
    input, header, directory := WriteAndOpen(codec, metadata, files, contents);
    ghost var a := WrittenArchive(codec, metadata, files, contents);
    WrittenArchiveIsServed(codec, metadata, files, contents);
    var found := LookUp(directory, FileNames(files));
    SameArchive(a, input, found);
    outcomes := ReadInSequence(Archive(input, found), ranges, contents);
  }

  lemma {:induction false} SameArchive(a: Archive, input: seq<byte>, found: seq<ArchivedFile>)
    requires a.input == input && |found| == |a.files| && forall i :: 0 <= i < |found| ==> found[i] == a.files[i]
    ensures Archive(input, found) == a
  {
    assert found == a.files;
  }

  /** End to end: under any interleaving of any number of threads over a written archive, every completed read
      reports the bytes the file had when it was written, refuses a range outside it, or was failed by the input. */
  lemma {:induction false} WrittenFilesReadBackConcurrently(
    codec: Codec, metadata: IndexConfig.Metadata, files: seq<IndexFile>, contents: seq<seq<byte>>,
    run: seq<State>, k: nat, t: Tid)
    requires Archivable(codec, metadata, files, contents) && files != [] && ValidNames(FileNames(files))
    requires IsRun(WrittenArchive(codec, metadata, files, contents), run) && k < |run|
    requires t in run[k].threads && run[k].threads[t].phase.Done?
    ensures Reports(contents, run[k].threads[t], run[k].threads[t].phase.outcome)
  {
    var a := WrittenArchive(codec, metadata, files, contents);
    WrittenArchiveIsServed(codec, metadata, files, contents);
    ConcurrentReadsAreExact(a, run, k);
    TruthfulReportsContents(a, contents, run[k].threads[t], run[k].threads[t].phase.outcome);
  }

  /** And while the input does not fail, every completed read returns exactly the range written. */
  lemma {:induction false} WrittenFilesReadBackExactly(
    codec: Codec, metadata: IndexConfig.Metadata, files: seq<IndexFile>, contents: seq<seq<byte>>,
    run: seq<State>, k: nat, t: Tid)
    requires Archivable(codec, metadata, files, contents) && files != [] && ValidNames(FileNames(files))
    requires IsFaultFreeRun(WrittenArchive(codec, metadata, files, contents), run) && k < |run|
    requires t in run[k].threads && run[k].threads[t].phase.Done?
    ensures var call := run[k].threads[t];
      && call.file < |contents|
      && call.phase.outcome == if call.a <= call.b <= |contents[call.file]| then Bytes(contents[call.file][call.a..call.b]) else BadRange
  {
    var a := WrittenArchive(codec, metadata, files, contents);
    hide IsRun, IsFaultFreeRun, WrittenArchive;
    FaultFreeRunsAreRuns(a, run);
    WrittenFilesReadBackConcurrently(codec, metadata, files, contents, run, k, t);
    FaultFreeCallsDoNotFail(a, run, k);
  }
}
