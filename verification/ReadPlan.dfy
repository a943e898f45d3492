/** How a range read of an archived file is served: which block, or directly (archive_directory.rs). */
module ReadPlan {
  import opened Base
  import opened Envelope
  import Storage

  const READ_CACHE_BLOCK_BYTES: nat := 64 * 1024
  const READ_CACHE_MAX_BLOCKS: nat := 256

  /** An input and the files opened over it. */
  datatype Archive = Archive(input: seq<byte>, files: seq<ArchivedFile>)

  predicate Disjoint(files: seq<ArchivedFile>) {
    forall i, j :: 0 <= i < j < |files| ==>
      files[i].start + files[i].length <= files[j].start || files[j].start + files[j].length <= files[i].start
  }

  /** What `read_bytes(a..b)` is about to do. */
  datatype Plan =
    | Refuse
    | Empty
    | Direct(pos: u64, length: nat)
    | Block(pos: u64, length: nat, from: nat)

  // usize addition as release builds do it
  function WrappingAdd(x: usize, y: usize): (sum: usize)
    ensures sum == if x + y <= USIZE_MAX then x + y else x + y - (USIZE_MAX + 1)
  {
    (x + y) % (USIZE_MAX + 1)
  }

  function BlockStart(a: usize): (start: usize)
    ensures start <= a < start + READ_CACHE_BLOCK_BYTES
    ensures start % READ_CACHE_BLOCK_BYTES == 0
  {
    a / READ_CACHE_BLOCK_BYTES * READ_CACHE_BLOCK_BYTES
  }

  function BlockEnd(file: ArchivedFile, blockStart: usize): (r: usize) {
    Min(file.length, WrappingAdd(blockStart, READ_CACHE_BLOCK_BYTES))
  }

  function PlanRead(file: ArchivedFile, a: usize, b: usize): (r: Plan) {
    if a > b || b > file.length then Refuse
    else if a == b then Empty
    else
      var blockStart := BlockStart(a);
      var blockEnd := BlockEnd(file, blockStart);
      if b - a > READ_CACHE_BLOCK_BYTES || b > blockEnd then
        if file.start + a > U64_MAX then Refuse else Direct(file.start + a, b - a)
      else
        if file.start + blockStart > U64_MAX then Refuse else Block(file.start + blockStart, blockEnd - blockStart, a - blockStart)
  }

  /** The bytes a read of `a..b` should return. */
  predicate Exactly(input: seq<byte>, file: ArchivedFile, a: usize, b: usize, bytes: seq<byte>) {
    && a <= b <= file.length
    && (a == b ==> bytes == [])
    && (a < b ==> Pread(input, file.start + a, b - a) == Some(bytes))
  }

  /** Which reads go through the cache: those that stay within one 64 KiB block of the file, counted from its start. They
      fetch that block, cut off at the file's end; the others fetch just the range. In the last block of a file as long as
      64 bits allow, the block's end wraps and the range is fetched. */
  lemma {:induction false} PlanFollowsBlocks(file: ArchivedFile, a: usize, b: usize)
    ensures var blockStart := a - a % 65536;
      PlanRead(file, a, b) ==
        if a > b || b > file.length then Refuse
        else if a == b then Empty
        else if a / 65536 == (b - 1) / 65536 && blockStart + 65536 <= 0xFFFF_FFFF_FFFF_FFFF then
          if file.start + blockStart <= 0xFFFF_FFFF_FFFF_FFFF
          then Block(file.start + blockStart, Min(65536, file.length - blockStart), a % 65536) else Refuse
        else if file.start + a <= 0xFFFF_FFFF_FFFF_FFFF then Direct(file.start + a, b - a) else Refuse
  {
    var blockStart := BlockStart(a);
    assert a / 65536 * 65536 == a - a % 65536;
    hide BlockStart, WrappingAdd;
    if a < b {
      SameBlockIff(a, b);
    }
  }

  lemma {:induction false} SameBlockIff(a: nat, b: nat)
    requires a < b
    ensures a / 65536 == (b - 1) / 65536 <==> b <= a - a % 65536 + 65536
  {
  }

  lemma {:induction false} PlansAreForTheRange(file: ArchivedFile, a: usize, b: usize)
    ensures var plan := PlanRead(file, a, b);
      && (plan.Empty? ==> a == b <= file.length)
      && (plan.Direct? ==> a < b <= file.length && plan.pos == file.start + a && plan.length == b - a)
  {
  }

  /** A planned block lies inside its file, and the requested range inside the block. */
  lemma {:induction false} PlannedBlockCoversTheRange(file: ArchivedFile, a: usize, b: usize)
    requires PlanRead(file, a, b).Block?
    ensures var plan := PlanRead(file, a, b);
      && a < b <= file.length
      && plan.from + (b - a) <= plan.length
      && plan.pos + plan.from == file.start + a
      && IsBlockOf(file, plan.pos, plan.length)
  {
    var blockStart := BlockStart(a);
    var blockEnd := BlockEnd(file, blockStart);
    assert blockStart < b <= blockEnd <= WrappingAdd(blockStart, READ_CACHE_BLOCK_BYTES);
  }

  /** The range `pos..pos+length` is one of the blocks a file is cut into. */
  predicate IsBlockOf(file: ArchivedFile, pos: nat, length: nat) {
    && file.start <= pos < file.start + file.length
    && (pos - file.start) % READ_CACHE_BLOCK_BYTES == 0
    && length == Min(file.length, pos - file.start + READ_CACHE_BLOCK_BYTES) - (pos - file.start)
  }

  /** A cache key belongs to one block of one file, although it records neither the file nor the length. */
  lemma {:induction false} KeysAreNotAliased(files: seq<ArchivedFile>, i: nat, j: nat, pos: nat, m: nat, n: nat)
    requires Disjoint(files) && i < |files| && j < |files|
    requires IsBlockOf(files[i], pos, m) && IsBlockOf(files[j], pos, n)
    ensures i == j && m == n
  {
  }

  /** Without disjointness the key is ambiguous: two files at one place can disagree on the block length. */
  lemma {:induction false} OverlappingFilesAlias(start: u64)
    ensures var short, long := ArchivedFile(start, 1), ArchivedFile(start, 2);
      IsBlockOf(short, start, 1) && IsBlockOf(long, start, 2) && !Disjoint([short, long])
  {
    var files := [ArchivedFile(start, 1), ArchivedFile(start, 2)];
    assert files[0].start + files[0].length > files[1].start && files[1].start + files[1].length > files[0].start;
  }

  /** `bytes` is what the input holds in the block of some file that starts at `pos`. */
  ghost predicate IsCachedBlock(a: Archive, pos: nat, bytes: seq<byte>) {
    exists i :: 0 <= i < |a.files| && IsBlockOf(a.files[i], pos, |bytes|) && StandsAt(bytes, pos, a.input)
  }

  /** Whatever block is found under a planned key, it is the planned one, and its slice is the requested range. */
  lemma {:induction false} CachedBlockAnswers(a: Archive, i: nat, x: usize, y: usize, bytes: seq<byte>)
    requires Disjoint(a.files) && i < |a.files| && PlanRead(a.files[i], x, y).Block?
    requires IsCachedBlock(a, PlanRead(a.files[i], x, y).pos, bytes)
    ensures var plan := PlanRead(a.files[i], x, y);
      && |bytes| == plan.length && plan.from + (y - x) <= |bytes|
      && Exactly(a.input, a.files[i], x, y, bytes[plan.from..plan.from + (y - x)])
  {
    var plan := PlanRead(a.files[i], x, y);
    PlannedBlockCoversTheRange(a.files[i], x, y);
    var j :| 0 <= j < |a.files| && IsBlockOf(a.files[j], plan.pos, |bytes|) && StandsAt(bytes, plan.pos, a.input);
    KeysAreNotAliased(a.files, i, j, plan.pos, plan.length, |bytes|);
    SliceOfSlice(a.input, plan.pos, |bytes|, plan.from, plan.from + (y - x));
  }

  /** The files of an accepted archive, as the directory hands them out. */
  function FilesOf(bodyStart: u64, entries: seq<Storage.ArchiveFileEntry>): (files: seq<ArchivedFile>)
    requires StartsFit(bodyStart, entries, |entries|)
    ensures |files| == |entries|
    ensures forall i :: 0 <= i < |files| ==> files[i] == ArchivedFile(bodyStart + entries[i].offset, entries[i].length)
  {
    seq(|entries|, i requires 0 <= i < |entries| => ArchivedFile(bodyStart + entries[i].offset, entries[i].length))
  }

  /** Header validation is what keeps cache keys apart. */
  lemma {:induction false} AcceptedFilesAreNotAliased(bodyStart: u64, entries: seq<Storage.ArchiveFileEntry>)
    requires Storage.FilesAccepted(entries) && StartsFit(bodyStart, entries, |entries|)
    ensures Disjoint(FilesOf(bodyStart, entries))
  {
    forall i, j | 0 <= i < j < |entries|
      ensures entries[i].offset + entries[i].length <= entries[j].offset || entries[j].offset + entries[j].length <= entries[i].offset
    {
      Storage.AcceptedFilesAreDisjoint(entries, i, j);
    }
  }

  /** Names of distinct paths open the files they were listed with. */
  lemma {:induction false} NamesOpenTheirFiles(bodyStart: u64, entries: seq<Storage.ArchiveFileEntry>, i: nat)
    requires StartsFit(bodyStart, entries, |entries|) && DistinctPaths(entries) && i < |entries|
    ensures KeyOf(entries[i]) in DirectoryOf(bodyStart, entries)
    ensures DirectoryOf(bodyStart, entries)[KeyOf(entries[i])] == FilesOf(bodyStart, entries)[i]
  {
    forall j | i < j < |entries| ensures KeyOf(entries[j]) != KeyOf(entries[i]) {
      assert KeysOf(entries)[i] != KeysOf(entries)[j];
    }
    LastListedWins(bodyStart, entries, i, |entries|);
  }
}
