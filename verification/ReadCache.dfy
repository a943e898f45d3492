/** The shared FIFO block cache, its metrics, and one file handle reading through it (archive_directory.rs, io.rs). */
module ReadCache {
  import opened Base
  import opened Dedup
  import opened Envelope
  import opened ReadPlan

  // ---- The cached blocks and their queue, as a value ----

  datatype Inner = Inner(blocks: map<u64, seq<byte>>, order: seq<u64>)

  const EMPTY_CACHE := Inner(map[], [])

  /** The queue lists every cached key once, and there are never more than the limit. */
  ghost predicate WellOrdered(inner: Inner) {
    && Distinct(inner.order)
    && Elements(inner.order) == inner.blocks.Keys
    && |inner.order| <= READ_CACHE_MAX_BLOCKS
  }

  lemma {:induction false} QueueIsAsLongAsTheMap(inner: Inner)
    requires WellOrdered(inner)
    ensures |inner.order| == |inner.blocks|
  {
    DistinctIffAsManyElements(inner.order);
    assert |inner.blocks.Keys| == |inner.blocks|;
  }

  function EvictOldest(inner: Inner): (r: Inner)
    requires inner.order != []
  {
    Inner(inner.blocks - {inner.order[0]}, inner.order[1..])
  }

  function Append(inner: Inner, pos: u64, block: seq<byte>): (r: Inner) {
    Inner(inner.blocks[pos := block], inner.order + [pos])
  }

  /** The eviction loop of `insert`. */
  function MakeRoom(inner: Inner): (r: Inner)
    decreases |inner.order|
  {
    if |inner.blocks| >= READ_CACHE_MAX_BLOCKS && inner.order != [] then MakeRoom(EvictOldest(inner)) else inner
  }

  lemma {:induction false} MakeRoomUnfolds(inner: Inner)
    ensures MakeRoom(inner) ==
      if |inner.blocks| >= READ_CACHE_MAX_BLOCKS && inner.order != [] then MakeRoom(EvictOldest(inner)) else inner
  {
  }

  /** `insert`: a block already there wins over the offered one. */
  function Inserted(inner: Inner, pos: u64, block: seq<byte>): (r: (Inner, seq<byte>)) {
    if pos in inner.blocks then (inner, inner.blocks[pos]) else (Append(MakeRoom(inner), pos, block), block)
  }

  lemma {:induction false} EvictKeepsOrder(inner: Inner)
    requires WellOrdered(inner) && inner.order != []
    ensures WellOrdered(EvictOldest(inner))
    ensures |EvictOldest(inner).blocks| == |inner.blocks| - 1
  {
    DistinctTail(inner.order);
    QueueIsAsLongAsTheMap(inner);
    QueueIsAsLongAsTheMap(EvictOldest(inner));
  }

  lemma {:induction false} AppendKeepsOrder(inner: Inner, pos: u64, block: seq<byte>)
    requires WellOrdered(inner) && pos !in inner.blocks && |inner.blocks| < READ_CACHE_MAX_BLOCKS
    ensures WellOrdered(Append(inner, pos, block))
    ensures |Append(inner, pos, block).blocks| == |inner.blocks| + 1
  {
    QueueIsAsLongAsTheMap(inner);
    assert pos !in Elements(inner.order);
    DistinctAppend(inner.order, pos);
    QueueIsAsLongAsTheMap(Append(inner, pos, block));
  }

  /** In a well ordered cache an insertion evicts at most one block, the oldest one, and only when the cache is full. */
  lemma {:induction false} InsertEvictsAtMostTheOldest(inner: Inner)
    requires WellOrdered(inner)
    ensures MakeRoom(inner) ==
      if |inner.blocks| == 256 then Inner(inner.blocks - {inner.order[0]}, inner.order[1..]) else inner
    ensures |MakeRoom(inner).blocks| < 256 && WellOrdered(MakeRoom(inner))
  {
    QueueIsAsLongAsTheMap(inner);
    if |inner.blocks| == READ_CACHE_MAX_BLOCKS {
      EvictKeepsOrder(inner);
    }
  }

  /** After an insertion the queue still lists the cached blocks once each, and there are at most 256. */
  lemma {:induction false} InsertKeepsOrder(inner: Inner, pos: u64, block: seq<byte>)
    requires WellOrdered(inner)
    ensures |Inserted(inner, pos, block).0.blocks| <= 256
    ensures WellOrdered(Inserted(inner, pos, block).0)
    ensures pos in Inserted(inner, pos, block).0.blocks
    ensures Inserted(inner, pos, block).1 == Inserted(inner, pos, block).0.blocks[pos]
  {
    InsertEvictsAtMostTheOldest(inner);
    if pos !in inner.blocks {
      AppendKeepsOrder(MakeRoom(inner), pos, block);
    }
    QueueIsAsLongAsTheMap(Inserted(inner, pos, block).0);
  }

  // ---- What the cache holds of an archive ----

  /** Every cached block is what the input holds in one block of one file. */
  ghost predicate Coherent(a: Archive, blocks: map<u64, seq<byte>>) {
    forall k :: k in blocks ==> IsCachedBlock(a, k, blocks[k])
  }

  /** The plan takes its block from the cache. */
  predicate Hits(plan: Plan, blocks: map<u64, seq<byte>>) {
    plan.Block? && plan.pos in blocks
  }

  /** The bytes the plan reads from the input: a block that is not cached, or a range that no block covers. */
  function Fetched(plan: Plan, blocks: map<u64, seq<byte>>): (r: nat) {
    match plan
    case Direct(_, length) => length
    case Block(pos, length, _) => if pos in blocks then 0 else length
    case _ => 0
  }

  /** The input lacks bytes the plan has to fetch: the whole block, even where the range itself is there. */
  predicate InputMissing(plan: Plan, input: seq<byte>, blocks: map<u64, seq<byte>>) {
    || (plan.Direct? && Pread(input, plan.pos, plan.length).None?)
    || (plan.Block? && plan.pos !in blocks && Pread(input, plan.pos, plan.length).None?)
  }

  /** A range the input has is still not readable exactly when its block is neither cached nor all there. */
  lemma {:induction false} ReadableRangeIsMissingIff(file: ArchivedFile, from: usize, to: usize, input: seq<byte>, blocks: map<u64, seq<byte>>)
    requires from < to <= file.length && Pread(input, file.start + from, to - from).Some?
    ensures var plan := PlanRead(file, from, to);
      InputMissing(plan, input, blocks) <==> plan.Block? && plan.pos !in blocks && |input| < plan.pos + plan.length
  {
    PlansAreForTheRange(file, from, to);
  }

  /** A range can be there while its block is not: of a file listed with ten bytes five are left, and the whole file is
      the block to fetch. */
  lemma {:induction false} ReadableRangeCanBeMissing(input: seq<byte>, file: ArchivedFile)
    requires file.length == 10 && |input| == file.start + 5 <= U64_MAX
    ensures Pread(input, file.start, 5) == Some(input[file.start..])
    ensures InputMissing(PlanRead(file, 0, 5), input, map[])
  {
    hide PlanRead;
    FirstBlockPlan(file, 5);
    assert input[file.start..file.start + 5] == input[file.start..];
  }

  lemma {:induction false} FirstBlockPlan(file: ArchivedFile, to: usize)
    requires file.start <= U64_MAX && 0 < to <= file.length <= READ_CACHE_BLOCK_BYTES
    ensures PlanRead(file, 0, to) == Block(file.start, file.length, 0)
  {
    assert BlockStart(0) == 0;
    assert WrappingAdd(0, READ_CACHE_BLOCK_BYTES) == READ_CACHE_BLOCK_BYTES;
    hide BlockStart, WrappingAdd;
  }

  /** Inserting a true block leaves only true blocks in the cache, and returns one. */
  lemma {:induction false} InsertKeepsBlocks(a: Archive, inner: Inner, pos: u64, block: seq<byte>)
    requires WellOrdered(inner) && IsCachedBlock(a, pos, block)
    requires Coherent(a, inner.blocks)
    ensures var (after, kept) := Inserted(inner, pos, block);
      && pos in after.blocks && after.blocks[pos] == kept && IsCachedBlock(a, pos, kept)
      && Coherent(a, after.blocks)
  {
    InsertEvictsAtMostTheOldest(inner);
  }

  lemma {:induction false} FetchedBlockIsCached(a: Archive, pos: u64, length: nat, block: seq<byte>)
    requires exists i :: 0 <= i < |a.files| && IsBlockOf(a.files[i], pos, length)
    requires Pread(a.input, pos, length) == Some(block)
    ensures IsCachedBlock(a, pos, block)
  {
  }

  // ---- The classes ----

  /** The counters; none of them is assumed to reach the width of its atomic. */
  class ReadMetrics {
    var preadCalls: nat
    var preadRanges: nat
    var preadBytes: nat
    var cacheHits: nat
    var cacheMisses: nat
    var cacheEvictions: nat
    // The gauge; that it never goes below zero is for the cache to keep
    var cachedBlocks: int

    constructor ()
      ensures preadCalls == preadRanges == preadBytes == 0
      ensures cacheHits == cacheMisses == cacheEvictions == cachedBlocks == 0
    {
      preadCalls, preadRanges, preadBytes := 0, 0, 0;
      cacheHits, cacheMisses, cacheEvictions, cachedBlocks := 0, 0, 0, 0;
    }

    method RecordPread(lengths: seq<nat>)
      modifies `preadCalls, `preadRanges, `preadBytes
      ensures preadCalls == old(preadCalls) + 1
      ensures preadRanges == old(preadRanges) + |lengths|
      ensures preadBytes == old(preadBytes) + Sum(lengths)
    {
      preadCalls := preadCalls + 1;
      preadRanges := preadRanges + |lengths|;
      preadBytes := preadBytes + Sum(lengths);
    }

    method RecordCacheHit()
      modifies `cacheHits
      ensures cacheHits == old(cacheHits) + 1
    {
      cacheHits := cacheHits + 1;
    }

    method RecordCacheMiss()
      modifies `cacheMisses
      ensures cacheMisses == old(cacheMisses) + 1
    {
      cacheMisses := cacheMisses + 1;
    }

    method RecordCacheInsert()
      modifies `cachedBlocks
      ensures cachedBlocks == old(cachedBlocks) + 1
    {
      cachedBlocks := cachedBlocks + 1;
    }

    method RecordCacheEviction()
      modifies `cacheEvictions, `cachedBlocks
      ensures cacheEvictions == old(cacheEvictions) + 1
      ensures cachedBlocks == old(cachedBlocks) - 1
    {
      cacheEvictions := cacheEvictions + 1;
      cachedBlocks := cachedBlocks - 1;
    }
  }

  function Sum(lengths: seq<nat>): (r: nat) {
    if lengths == [] then 0 else lengths[0] + Sum(lengths[1..])
  }

  /** The positional reader under the handles; it counts a call before it makes it. */
  class MeteredInput {
    const data: seq<byte>
    const metrics: ReadMetrics

    constructor (data: seq<byte>, metrics: ReadMetrics)
      ensures this.data == data && this.metrics == metrics
    {
      this.data, this.metrics := data, metrics;
    }

    method PreadOne(pos: nat, length: nat) returns (bytes: Option<seq<byte>>)
      modifies metrics`preadCalls, metrics`preadRanges, metrics`preadBytes
      ensures bytes == Pread(data, pos, length)
      ensures metrics.preadCalls == old(metrics.preadCalls) + 1
      ensures metrics.preadRanges == old(metrics.preadRanges) + 1
      ensures metrics.preadBytes == old(metrics.preadBytes) + length
    {
      assert Sum([length]) == length + Sum([]);
      metrics.RecordPread([length]);
      bytes := Pread(data, pos, length);
    }
  }

  class ArchiveReadCache {
    var blocks: map<u64, seq<byte>>
    var order: seq<u64>
    const metrics: ReadMetrics

    ghost function Value(): (r: Inner)
      reads this
    {
      Inner(blocks, order)
    }

    /** Queue and map agree, and the gauge shows the size of the map. */
    ghost predicate Valid()
      reads this, metrics
    {
      WellOrdered(Value()) && metrics.cachedBlocks == |blocks|
    }

    constructor (metrics: ReadMetrics)
      requires metrics.cachedBlocks == 0
      ensures Valid() && Value() == EMPTY_CACHE && this.metrics == metrics
    {
      this.metrics := metrics;
      blocks, order := map[], [];
    }

    method Get(pos: u64) returns (block: Option<seq<byte>>)
      modifies metrics`cacheHits
      ensures block == if pos in blocks then Some(blocks[pos]) else None
      ensures metrics.cacheHits == old(metrics.cacheHits) + if block.Some? then 1 else 0
    {
      block := if pos in blocks then Some(blocks[pos]) else None;
      if block.Some? {
        metrics.RecordCacheHit();
      }
    }

    method Insert(pos: u64, block: seq<byte>) returns (kept: seq<byte>)
      requires Valid()
      modifies this, metrics`cacheEvictions, metrics`cachedBlocks
      ensures Valid()
      ensures (Value(), kept) == Inserted(old(Value()), pos, block)
      ensures metrics.cachedBlocks + metrics.cacheEvictions
           == old(metrics.cachedBlocks + metrics.cacheEvictions) + if pos in old(blocks) then 0 else 1
    {
      InsertKeepsOrder(Value(), pos, block);
      if pos in blocks {
        return blocks[pos];
      }
      hide WellOrdered, MakeRoom;
      while |blocks| >= READ_CACHE_MAX_BLOCKS
        invariant WellOrdered(Value()) && metrics.cachedBlocks == |blocks|
        invariant MakeRoom(Value()) == MakeRoom(old(Value()))
        invariant pos !in blocks
        invariant metrics.cachedBlocks + metrics.cacheEvictions == old(metrics.cachedBlocks + metrics.cacheEvictions)
        decreases |order|
      {
        if order == [] {
          break;
        }
        EvictKeepsOrder(Value());
        MakeRoomUnfolds(Value());
        var evicted := order[0];
        order := order[1..];
        blocks := blocks - {evicted};
        metrics.RecordCacheEviction();
      }
      InsertEvictsAtMostTheOldest(old(Value()));
      InsertEvictsAtMostTheOldest(Value());
      MakeRoomUnfolds(Value());
      AppendKeepsOrder(Value(), pos, block);
      order := order + [pos];
      blocks := blocks[pos := block];
      metrics.RecordCacheInsert();
      kept := block;
    }
  }

  lemma {:induction false} ExactlyOf(input: seq<byte>, file: ArchivedFile, from: usize, to: usize)
    ensures from == to <= file.length ==> Exactly(input, file, from, to, [])
    ensures from < to <= file.length && Pread(input, file.start + from, to - from).Some? ==>
      Exactly(input, file, from, to, Pread(input, file.start + from, to - from).value)
  {
  }

  // A read either returns bytes, refuses the range, or reports a failed input read.
  datatype Outcome = Bytes(bytes: seq<byte>) | BadRange | ReadFailed

  class ArchiveFileHandle {
    const input: MeteredInput
    const cache: ArchiveReadCache
    const file: ArchivedFile

    constructor (input: MeteredInput, cache: ArchiveReadCache, file: ArchivedFile)
      ensures this.input == input && this.cache == cache && this.file == file
    {
      this.input, this.cache, this.file := input, cache, file;
    }

    ghost predicate Shares()
      reads this
    {
      input.metrics == cache.metrics
    }

    /** The block path: look the block up, or read it whole and offer it to the cache. */
    method ReadCachedBlock(pos: u64, length: nat, ghost a: Archive) returns (r: Option<seq<byte>>)
      requires cache.Valid() && Shares()
      requires a.input == input.data && Coherent(a, cache.blocks)
      requires exists i :: 0 <= i < |a.files| && IsBlockOf(a.files[i], pos, length)
      modifies cache, cache.metrics
      ensures cache.Valid() && Coherent(a, cache.blocks)
      ensures r.Some? <==> pos in old(cache.blocks) || Pread(input.data, pos, length).Some?
      ensures r.Some? ==> IsCachedBlock(a, pos, r.value) && pos in cache.blocks && cache.blocks[pos] == r.value
      ensures cache.metrics.cacheHits == old(cache.metrics.cacheHits) + if pos in old(cache.blocks) then 1 else 0
      ensures var fetches := if pos in old(cache.blocks) then 0 else 1;
        && cache.metrics.cacheMisses == old(cache.metrics.cacheMisses) + fetches
        && cache.metrics.preadCalls == old(cache.metrics.preadCalls) + fetches
        && cache.metrics.preadRanges == old(cache.metrics.preadRanges) + fetches
        && cache.metrics.preadBytes == old(cache.metrics.preadBytes) + fetches * length
    {
      hide Inserted, WellOrdered, IsCachedBlock, IsBlockOf;
      r := cache.Get(pos);
      if r.None? {
        cache.metrics.RecordCacheMiss();
        r := input.PreadOne(pos, length);
        if r.Some? {
          FetchedBlockIsCached(a, pos, length, r.value);
          InsertKeepsBlocks(a, cache.Value(), pos, r.value);
          InsertKeepsOrder(cache.Value(), pos, r.value);
          var kept := cache.Insert(pos, r.value);
          r := Some(kept);
        }
      }
    }

    /** One call, alone: exact bytes or failure, whatever the shared cache already holds of the archive `a`. */
    method ReadBytes(from: usize, to: usize, ghost a: Archive, ghost i: nat) returns (r: Outcome)
      requires cache.Valid() && Shares()
      requires Disjoint(a.files) && i < |a.files| && a.files[i] == file && a.input == input.data
      requires Coherent(a, cache.blocks)
      modifies cache, cache.metrics
      ensures cache.Valid() && Coherent(a, cache.blocks)
      ensures r.Bytes? ==> Exactly(input.data, file, from, to, r.bytes)
      ensures r.BadRange? <==> PlanRead(file, from, to).Refuse?
      ensures r.ReadFailed? <==> InputMissing(PlanRead(file, from, to), input.data, old(cache.blocks))
      ensures cache.metrics.cacheHits == old(cache.metrics.cacheHits) + if Hits(PlanRead(file, from, to), old(cache.blocks)) then 1 else 0
      ensures var plan := PlanRead(file, from, to);
        var fetches := if plan.Direct? || (plan.Block? && plan.pos !in old(cache.blocks)) then 1 else 0;
        && cache.metrics.cacheMisses == old(cache.metrics.cacheMisses) + (if plan.Direct? then 0 else fetches)
        && cache.metrics.preadCalls == old(cache.metrics.preadCalls) + fetches
        && cache.metrics.preadRanges == old(cache.metrics.preadRanges) + fetches
        && cache.metrics.preadBytes == old(cache.metrics.preadBytes) + Fetched(plan, old(cache.blocks))
    {
      hide PlanRead, Disjoint, IsBlockOf, IsCachedBlock, Coherent, WellOrdered, Inserted, Pread, Exactly;
      ExactlyOf(input.data, file, from, to);
      PlansAreForTheRange(file, from, to);
      match PlanRead(file, from, to) {
        case Refuse =>
          r := BadRange;
        case Empty =>
          r := Bytes([]);
        case Direct(pos, length) =>
          var data := input.PreadOne(pos, length);
          r := if data.Some? then Bytes(data.value) else ReadFailed;
        case Block(pos, length, offset) =>
          PlannedBlockCoversTheRange(file, from, to);
          assert IsBlockOf(a.files[i], pos, length);
          var block := ReadCachedBlock(pos, length, a);
          if block.None? {
            return ReadFailed;
          }
          CachedBlockAnswers(a, i, from, to, block.value);
          r := Bytes(block.value[offset..offset + (to - from)]);
      }
    }
  }
}
