/** Reading all archived files in batches of positional reads (storage.rs, io.rs). */
module BatchRead {
  import opened Base
  import opened Storage
  import opened Envelope

  const MAX_ARCHIVE_READ_BATCH_BYTES: nat := 64 * 1024 * 1024
  const MAX_ARCHIVE_READ_BATCH_RANGES: nat := 64

  datatype ReadRequest = ReadRequest(pos: u64, length: u64)

  /** A slice behind the positional-read interface, with the batches it was asked for. */
  class SliceReader {
    const data: seq<byte>
    var batches: seq<seq<ReadRequest>>

    constructor (data: seq<byte>)
      ensures this.data == data && batches == []
    {
      this.data, batches := data, [];
    }

    /** Fills every requested range, or fails at the first one that is not there. */
    method Pread(requests: seq<ReadRequest>) returns (r: Option<seq<seq<byte>>>)
      modifies `batches
      ensures batches == old(batches) + [requests]
      ensures r.Some? <==> forall k :: 0 <= k < |requests| ==> Envelope.Pread(data, requests[k].pos, requests[k].length).Some?
      ensures r.Some? ==> |r.value| == |requests|
      ensures r.Some? ==> forall k :: 0 <= k < |requests| ==> Envelope.Pread(data, requests[k].pos, requests[k].length) == Some(r.value[k])
    {
      batches := batches + [requests];
      var buffers := [];
      for i := 0 to |requests|
        invariant |buffers| == i
        invariant forall k :: 0 <= k < i ==> Envelope.Pread(data, requests[k].pos, requests[k].length) == Some(buffers[k])
      {
        var bytes := Envelope.Pread(data, requests[i].pos, requests[i].length);
        if bytes.None? {
          return None;
        }
        buffers := buffers + [bytes.value];
      }
      r := Some(buffers);
    }
  }

  // The caller's closure, with the state it captures made explicit
  type Consumer<!S, !T> = (S, string, seq<byte>) -> (S, Result<T>)

  datatype Progress<S, T> = Progress(state: S, output: seq<T>) | Failed

  /** Reading one file by itself and handing it on. */
  function ReadOne<S, T>(data: seq<byte>, bodyStart: u64, consume: Consumer<S, T>, file: ArchiveFileEntry, p: Progress<S, T>): (r: Progress<S, T>) {
    if p.Failed? || bodyStart + file.offset > U64_MAX then Failed
    else match Pread(data, bodyStart + file.offset, file.length)
      case None => Failed
      case Some(bytes) =>
        var (state, consumed) := consume(p.state, file.name, bytes);
        if consumed.Ok? then Progress(state, p.output + [consumed.value]) else Failed
  }

  /** The reference: the first `n` files read one by one, in order. */
  function OneByOne<S, T>(data: seq<byte>, bodyStart: u64, consume: Consumer<S, T>, start: S, files: seq<ArchiveFileEntry>, n: nat): (r: Progress<S, T>)
    requires n <= |files|
  {
    if n == 0 then Progress(start, [])
    else ReadOne(data, bodyStart, consume, files[n - 1], OneByOne(data, bodyStart, consume, start, files, n - 1))
  }

  lemma {:induction false} FailureStays<S, T>(
    data: seq<byte>, bodyStart: u64, consume: Consumer<S, T>, start: S, files: seq<ArchiveFileEntry>, m: nat, n: nat)
    requires m <= n <= |files| && OneByOne(data, bodyStart, consume, start, files, m).Failed?
    ensures OneByOne(data, bodyStart, consume, start, files, n).Failed?
    decreases n
  {
    if m < n {
      FailureStays(data, bodyStart, consume, start, files, m, n - 1);
    }
  }

  function RequestOf(bodyStart: u64, file: ArchiveFileEntry): (r: ReadRequest) {
    ReadRequest(if bodyStart + file.offset > U64_MAX then 0 else bodyStart + file.offset, file.length)
  }

  function RequestsOf(bodyStart: u64, files: seq<ArchiveFileEntry>): (requests: seq<ReadRequest>)
    ensures |requests| == |files| && forall k :: 0 <= k < |files| ==> requests[k] == RequestOf(bodyStart, files[k])
  {
    MapSeq(f => RequestOf(bodyStart, f), files)
  }

  function BatchBytes(batch: seq<ReadRequest>): (r: nat) {
    if batch == [] then 0 else BatchBytes(batch[..|batch| - 1]) + batch[|batch| - 1].length
  }

  /** The limits one positional read keeps. */
  predicate WithinLimits(batch: seq<ReadRequest>) {
    && 1 <= |batch| <= MAX_ARCHIVE_READ_BATCH_RANGES
    && (|batch| > 1 ==> BatchBytes(batch) <= MAX_ARCHIVE_READ_BATCH_BYTES)
  }

  function SaturatingAdd(x: usize, y: usize): (r: usize) {
    Min(x + y, USIZE_MAX)
  }

  datatype PendingArchiveFile = PendingArchiveFile(name: string, request: ReadRequest)

  predicate IsPending(pending: seq<PendingArchiveFile>, bodyStart: u64, files: seq<ArchiveFileEntry>, from: nat, to: nat) {
    && from <= to <= |files| && |pending| == to - from
    && forall k :: from <= k < to ==>
      && bodyStart + files[k].offset <= U64_MAX
      && pending[k - from] == PendingArchiveFile(files[k].name, RequestOf(bodyStart, files[k]))
  }

  /** Handing the pending files on, in order, once their bytes are there. */
  method ConsumePending<S, T>(
    pending: seq<PendingArchiveFile>, buffers: seq<seq<byte>>, consume: Consumer<S, T>, state: S, output: seq<T>,
    ghost data: seq<byte>, ghost bodyStart: u64, ghost start: S, ghost files: seq<ArchiveFileEntry>, ghost from: nat, ghost to: nat)
    returns (p: Progress<S, T>)
    requires IsPending(pending, bodyStart, files, from, to)
    requires OneByOne(data, bodyStart, consume, start, files, from) == Progress(state, output)
    requires |buffers| == |pending|
    requires forall k :: 0 <= k < |pending| ==> Pread(data, pending[k].request.pos, pending[k].request.length) == Some(buffers[k])
    ensures p == OneByOne(data, bodyStart, consume, start, files, to)
  {
    p := Progress(state, output);
    for i := 0 to |pending|
      invariant p == OneByOne(data, bodyStart, consume, start, files, from + i)
      invariant p.Progress?
    {
      assert pending[i] == PendingArchiveFile(files[from + i].name, RequestOf(bodyStart, files[from + i]));
      var (next, consumed) := consume(p.state, pending[i].name, buffers[i]);
      if consumed.Err? {
        FailureStays(data, bodyStart, consume, start, files, from + i + 1, to);
        return Failed;
      }
      p := Progress(next, p.output + [consumed.value]);
    }
  }

  lemma {:induction false} MissingRangeFails<S, T>(
    data: seq<byte>, bodyStart: u64, consume: Consumer<S, T>, start: S, files: seq<ArchiveFileEntry>, k: nat, n: nat)
    requires k < n <= |files| && bodyStart + files[k].offset <= U64_MAX
    requires Pread(data, bodyStart + files[k].offset, files[k].length).None?
    ensures OneByOne(data, bodyStart, consume, start, files, n).Failed?
  {
    FailureStays(data, bodyStart, consume, start, files, k + 1, n);
  }

  lemma {:induction false} OverflowFails<S, T>(
    data: seq<byte>, bodyStart: u64, consume: Consumer<S, T>, start: S, files: seq<ArchiveFileEntry>, k: nat)
    requires k < |files| && bodyStart + files[k].offset > U64_MAX
    ensures OneByOne(data, bodyStart, consume, start, files, |files|).Failed?
  {
    FailureStays(data, bodyStart, consume, start, files, k + 1, |files|);
  }

  /** The first file the consumer refuses fails the whole. */
  lemma {:induction false} RefusalFails<S, T>(
    data: seq<byte>, bodyStart: u64, consume: Consumer<S, T>, start: S, files: seq<ArchiveFileEntry>, k: nat, bytes: seq<byte>)
    requires k < |files| && OneByOne(data, bodyStart, consume, start, files, k).Progress?
    requires Pread(data, bodyStart + files[k].offset, files[k].length) == Some(bytes)
    requires consume(OneByOne(data, bodyStart, consume, start, files, k).state, files[k].name, bytes).1.Err?
    ensures OneByOne(data, bodyStart, consume, start, files, |files|).Failed?
  {
    FailureStays(data, bodyStart, consume, start, files, k + 1, |files|);
  }

  /** `read_archive_file_batch`: one positional read for all pending files, then each is consumed in order. */
  method ReadArchiveFileBatch<S, T>(
    reader: SliceReader, pending: seq<PendingArchiveFile>, consume: Consumer<S, T>, state: S, output: seq<T>,
    ghost bodyStart: u64, ghost start: S, ghost files: seq<ArchiveFileEntry>, ghost from: nat, ghost to: nat)
    returns (p: Progress<S, T>)
    requires IsPending(pending, bodyStart, files, from, to)
    requires OneByOne(reader.data, bodyStart, consume, start, files, from) == Progress(state, output)
    modifies reader`batches
    ensures p == OneByOne(reader.data, bodyStart, consume, start, files, to)
    ensures reader.batches == old(reader.batches) + [RequestsOf(bodyStart, files[from..to])]
  {
    hide OneByOne;
    var requests := MapSeq((f: PendingArchiveFile) => f.request, pending);
    assert requests == RequestsOf(bodyStart, files[from..to]);
    var buffers := reader.Pread(requests);
    if buffers.None? {
      ghost var k :| 0 <= k < |requests| && Pread(reader.data, requests[k].pos, requests[k].length).None?;
      assert pending[k] == PendingArchiveFile(files[from + k].name, RequestOf(bodyStart, files[from + k]));
      MissingRangeFails(reader.data, bodyStart, consume, start, files, from + k, to);
      return Failed;
    }
    p := ConsumePending(pending, buffers.value, consume, state, output, reader.data, bodyStart, start, files, from, to);
  }

  ghost predicate AllWithinLimits(batches: seq<seq<ReadRequest>>) {
    forall k :: 0 <= k < |batches| ==> WithinLimits(batches[k])
  }

  lemma {:induction false} RequestsGrow(bodyStart: u64, files: seq<ArchiveFileEntry>, from: nat, i: nat)
    requires from <= i < |files|
    ensures RequestsOf(bodyStart, files[from..i + 1]) == RequestsOf(bodyStart, files[from..i]) + [RequestOf(bodyStart, files[i])]
    ensures BatchBytes(RequestsOf(bodyStart, files[from..i + 1])) == BatchBytes(RequestsOf(bodyStart, files[from..i])) + files[i].length
  {
    var r := RequestsOf(bodyStart, files[from..i]);
    assert RequestsOf(bodyStart, files[from..i + 1]) == r + [RequestOf(bodyStart, files[i])];
    assert (r + [RequestOf(bodyStart, files[i])])[..|r|] == r;
  }

  lemma {:induction false} RequestsJoin(bodyStart: u64, files: seq<ArchiveFileEntry>, from: nat, to: nat)
    requires from <= to <= |files|
    ensures RequestsOf(bodyStart, files[..from]) + RequestsOf(bodyStart, files[from..to]) == RequestsOf(bodyStart, files[..to])
  {
  }

  /** One more file of this length would break a limit of the batch. */
  predicate Full(batch: seq<ReadRequest>, length: nat) {
    |batch| >= MAX_ARCHIVE_READ_BATCH_RANGES || BatchBytes(batch) + length > MAX_ARCHIVE_READ_BATCH_BYTES
  }

  /** A batch has at most 64 ranges and, unless it is one file, 64 MiB; it is full when one more file would break that. */
  lemma {:induction false} LimitsAre(batch: seq<ReadRequest>, length: nat)
    ensures WithinLimits(batch) <==> |batch| == 1 || (2 <= |batch| <= 64 && BatchBytes(batch) <= 67_108_864)
    ensures Full(batch, length) <==> |batch| >= 64 || BatchBytes(batch) + length > 67_108_864
  {
  }

  /** No batch was closed early: the file that follows it would not have fitted. */
  ghost predicate Greedy(batches: seq<seq<ReadRequest>>, files: seq<ArchiveFileEntry>) {
    forall k :: 0 <= k < |batches| ==>
      var n := |Flatten(batches[..k + 1])|;
      n < |files| ==> Full(batches[k], files[n].length)
  }

  /** What was sent since `before`: batches that keep the limits, are closed only when full, and partition the first
      `n` requests in order. */
  ghost predicate Sent(
    before: seq<seq<ReadRequest>>, batches: seq<seq<ReadRequest>>, now: seq<seq<ReadRequest>>,
    bodyStart: u64, files: seq<ArchiveFileEntry>, n: nat)
    requires n <= |files|
  {
    && now == before + batches
    && AllWithinLimits(batches) && Greedy(batches, files)
    && Flatten(batches) == RequestsOf(bodyStart, files[..n])
  }

  lemma {:induction false} SentGrows(
    before: seq<seq<ReadRequest>>, batches: seq<seq<ReadRequest>>, now: seq<seq<ReadRequest>>,
    bodyStart: u64, files: seq<ArchiveFileEntry>, from: nat, to: nat)
    requires from <= to <= |files| && Sent(before, batches, now, bodyStart, files, from)
    requires WithinLimits(RequestsOf(bodyStart, files[from..to]))
    requires to < |files| ==> Full(RequestsOf(bodyStart, files[from..to]), files[to].length)
    ensures var batch := RequestsOf(bodyStart, files[from..to]);
      Sent(before, batches + [batch], now + [batch], bodyStart, files, to)
  {
    var batch := RequestsOf(bodyStart, files[from..to]);
    FlattenAppend(batches, batch);
    RequestsJoin(bodyStart, files, from, to);
    GreedyGrows(batches, batch, files, to);
    assert now + [batch] == before + (batches + [batch]);
  }

  lemma {:induction false} GreedyGrows(batches: seq<seq<ReadRequest>>, batch: seq<ReadRequest>, files: seq<ArchiveFileEntry>, n: nat)
    requires Greedy(batches, files) && |Flatten(batches + [batch])| == n
    requires n < |files| ==> Full(batch, files[n].length)
    ensures Greedy(batches + [batch], files)
  {
    hide Full, Flatten;
    var grown := batches + [batch];
    forall k | 0 <= k < |grown| ensures var m := |Flatten(grown[..k + 1])|; m < |files| ==> Full(grown[k], files[m].length) {
      if k < |batches| {
        assert grown[..k + 1] == batches[..k + 1];
      } else {
        assert grown[..k + 1] == grown;
      }
    }
  }

  /** The pending run of files, its byte count, and the limits it keeps. */
  ghost predicate PendingOk(pending: seq<PendingArchiveFile>, pendingBytes: nat, bodyStart: u64, files: seq<ArchiveFileEntry>, from: nat, to: nat) {
    && IsPending(pending, bodyStart, files, from, to)
    && var requests := RequestsOf(bodyStart, files[from..to]);
    && pendingBytes == Min(BatchBytes(requests), USIZE_MAX)
    && (from < to ==> WithinLimits(requests))
  }

  /** The loop's saturating test is the limit test: saturation never hides that a limit is broken. */
  lemma {:induction false} SaturationIsExact(
    pending: seq<PendingArchiveFile>, pendingBytes: usize, bodyStart: u64, files: seq<ArchiveFileEntry>, from: nat, i: nat)
    requires from <= i < |files| && PendingOk(pending, pendingBytes, bodyStart, files, from, i)
    ensures Full(RequestsOf(bodyStart, files[from..i]), files[i].length) <==>
      || |pending| >= MAX_ARCHIVE_READ_BATCH_RANGES
      || SaturatingAdd(pendingBytes, files[i].length) > MAX_ARCHIVE_READ_BATCH_BYTES
  {
  }

  /** Adding a file keeps the limits when the run was empty or the file still fitted. */
  lemma {:induction false} PendingGrows(
    pending: seq<PendingArchiveFile>, pendingBytes: usize, bodyStart: u64, files: seq<ArchiveFileEntry>, from: nat, i: nat)
    requires from <= i < |files| && PendingOk(pending, pendingBytes, bodyStart, files, from, i)
    requires bodyStart + files[i].offset <= U64_MAX
    requires from < i ==> !Full(RequestsOf(bodyStart, files[from..i]), files[i].length)
    ensures PendingOk(
      pending + [PendingArchiveFile(files[i].name, RequestOf(bodyStart, files[i]))],
      SaturatingAdd(pendingBytes, files[i].length), bodyStart, files, from, i + 1)
  {
    RequestsGrow(bodyStart, files, from, i);
    if from == i {
      assert files[i..i] == [];
    }
  }

  lemma {:induction false} PendingFacts(
    pending: seq<PendingArchiveFile>, pendingBytes: nat, bodyStart: u64, files: seq<ArchiveFileEntry>, from: nat, to: nat)
    requires PendingOk(pending, pendingBytes, bodyStart, files, from, to)
    ensures from <= to <= |files| && |pending| == to - from && pendingBytes <= USIZE_MAX
    ensures IsPending(pending, bodyStart, files, from, to)
    ensures from < to ==> WithinLimits(RequestsOf(bodyStart, files[from..to]))
  {
  }

  lemma {:induction false} SentMeans(
    before: seq<seq<ReadRequest>>, batches: seq<seq<ReadRequest>>, now: seq<seq<ReadRequest>>,
    bodyStart: u64, files: seq<ArchiveFileEntry>, n: nat)
    requires n <= |files| && Sent(before, batches, now, bodyStart, files, n)
    ensures now == before + batches && AllWithinLimits(batches) && Greedy(batches, files)
  {
  }

  lemma {:induction false} NothingSent(now: seq<seq<ReadRequest>>, bodyStart: u64, files: seq<ArchiveFileEntry>)
    ensures Sent(now, [], now, bodyStart, files, 0)
  {
  }

  lemma {:induction false} NothingRead<S, T>(data: seq<byte>, bodyStart: u64, consume: Consumer<S, T>, start: S, files: seq<ArchiveFileEntry>)
    ensures OneByOne(data, bodyStart, consume, start, files, 0) == Progress(start, [])
  {
  }

  lemma {:induction false} NothingPending(bodyStart: u64, files: seq<ArchiveFileEntry>, n: nat)
    requires n <= |files|
    ensures PendingOk([], 0, bodyStart, files, n, n)
  {
    assert RequestsOf(bodyStart, files[n..n]) == [];
  }

  /** Reads the pending run as one more batch. */
  method Flush<S, T>(
    reader: SliceReader, pending: seq<PendingArchiveFile>, consume: Consumer<S, T>, state: S, output: seq<T>,
    ghost bodyStart: u64, ghost start: S, ghost files: seq<ArchiveFileEntry>, ghost from: nat, ghost to: nat,
    ghost before: seq<seq<ReadRequest>>, ghost batches: seq<seq<ReadRequest>>)
    returns (p: Progress<S, T>, ghost batches': seq<seq<ReadRequest>>)
    requires from < to && IsPending(pending, bodyStart, files, from, to) && WithinLimits(RequestsOf(bodyStart, files[from..to]))
    requires to < |files| ==> Full(RequestsOf(bodyStart, files[from..to]), files[to].length)
    requires OneByOne(reader.data, bodyStart, consume, start, files, from) == Progress(state, output)
    requires Sent(before, batches, reader.batches, bodyStart, files, from)
    modifies reader`batches
    ensures p == OneByOne(reader.data, bodyStart, consume, start, files, to)
    ensures batches' == batches + [RequestsOf(bodyStart, files[from..to])]
    ensures Sent(before, batches', reader.batches, bodyStart, files, to)
  {
    hide OneByOne, Sent, Full, WithinLimits, RequestsOf;
    SentGrows(before, batches, reader.batches, bodyStart, files, from, to);
    p := ReadArchiveFileBatch(reader, pending, consume, state, output, bodyStart, start, files, from, to);
    batches' := batches + [RequestsOf(bodyStart, files[from..to])];
  }

  /** Flushes the pending run exactly when file `i` no longer fits behind it. */
  method MakeRoom<S, T>(
    reader: SliceReader, pending: seq<PendingArchiveFile>, pendingBytes: usize, consume: Consumer<S, T>, state: S, output: seq<T>,
    ghost bodyStart: u64, ghost start: S, files: seq<ArchiveFileEntry>, ghost from: nat, i: nat,
    ghost before: seq<seq<ReadRequest>>, ghost batches: seq<seq<ReadRequest>>)
    returns (
      p: Progress<S, T>, pending': seq<PendingArchiveFile>, pendingBytes': usize,
      ghost from': nat, ghost batches': seq<seq<ReadRequest>>)
    requires from <= i < |files| && PendingOk(pending, pendingBytes, bodyStart, files, from, i)
    requires OneByOne(reader.data, bodyStart, consume, start, files, from) == Progress(state, output)
    requires Sent(before, batches, reader.batches, bodyStart, files, from)
    modifies reader`batches
    ensures from' == if from < i && Full(RequestsOf(bodyStart, files[from..i]), files[i].length) then i else from
    ensures batches' == if from' == from then batches else batches + [RequestsOf(bodyStart, files[from..i])]
    ensures Sent(before, batches', reader.batches, bodyStart, files, from')
    ensures p == OneByOne(reader.data, bodyStart, consume, start, files, from')
    ensures p.Progress? ==> PendingOk(pending', pendingBytes', bodyStart, files, from', i)
  {
    hide OneByOne, Sent, AllWithinLimits, WithinLimits, RequestsOf, PendingOk, IsPending, SaturatingAdd, Full;
    p, pending', pendingBytes', from', batches' := Progress(state, output), pending, pendingBytes, from, batches;
    PendingFacts(pending, pendingBytes, bodyStart, files, from, i);
    SaturationIsExact(pending, pendingBytes, bodyStart, files, from, i);
    if pending != []
      && (|pending| >= MAX_ARCHIVE_READ_BATCH_RANGES
          || SaturatingAdd(pendingBytes, files[i].length) > MAX_ARCHIVE_READ_BATCH_BYTES) {
      p, batches' := Flush(reader, pending, consume, state, output, bodyStart, start, files, from, i, before, batches);
      pending', pendingBytes', from' := [], 0, i;
      NothingPending(bodyStart, files, i);
    }
  }

  /** `read_archive_files_with`: the same result as reading file by file, in batches that keep the limits. */
  method ReadArchiveFilesWith<S, T>(reader: SliceReader, bodyStart: u64, files: seq<ArchiveFileEntry>, consume: Consumer<S, T>, start: S)
    returns (p: Progress<S, T>, ghost batches: seq<seq<ReadRequest>>)
    modifies reader`batches
    ensures p == OneByOne(reader.data, bodyStart, consume, start, files, |files|)
    ensures reader.batches == old(reader.batches) + batches && AllWithinLimits(batches) && Greedy(batches, files)
    ensures p.Progress? ==> Sent(old(reader.batches), batches, reader.batches, bodyStart, files, |files|)
  {
    hide OneByOne, Sent, AllWithinLimits, WithinLimits, RequestsOf, PendingOk, IsPending, SaturatingAdd, Full, Greedy;
    NothingRead(reader.data, bodyStart, consume, start, files);
    NothingSent(reader.batches, bodyStart, files);
    p := Progress(start, []);
    var pending: seq<PendingArchiveFile> := [];
    var pendingBytes: usize := 0;
    ghost var from: nat := 0;
    ghost var before := reader.batches;
    batches := [];
    NothingPending(bodyStart, files, 0);
    for i := 0 to |files|
      invariant from <= i && p.Progress?
      invariant Sent(before, batches, reader.batches, bodyStart, files, from)
      invariant PendingOk(pending, pendingBytes, bodyStart, files, from, i)
      invariant p == OneByOne(reader.data, bodyStart, consume, start, files, from)
    {
      var file := files[i];
      PendingFacts(pending, pendingBytes, bodyStart, files, from, i);
      SentMeans(before, batches, reader.batches, bodyStart, files, from);
      if bodyStart + file.offset > U64_MAX {
        OverflowFails(reader.data, bodyStart, consume, start, files, i);
        return Failed, batches;
      }
      p, pending, pendingBytes, from, batches :=
        MakeRoom(reader, pending, pendingBytes, consume, p.state, p.output, bodyStart, start, files, from, i, before, batches);
      SentMeans(before, batches, reader.batches, bodyStart, files, from);
      if p.Failed? {
        FailureStays(reader.data, bodyStart, consume, start, files, from, |files|);
        return Failed, batches;
      }
      PendingGrows(pending, pendingBytes, bodyStart, files, from, i);
      pending := pending + [PendingArchiveFile(file.name, RequestOf(bodyStart, file))];
      pendingBytes := SaturatingAdd(pendingBytes, file.length);
    }
    PendingFacts(pending, pendingBytes, bodyStart, files, from, |files|);
    SentMeans(before, batches, reader.batches, bodyStart, files, from);
    if pending != [] {
      p, batches := Flush(reader, pending, consume, p.state, p.output, bodyStart, start, files, from, |files|, before, batches);
    }
    SentMeans(before, batches, reader.batches, bodyStart, files, |files|);
  }

  /** On an archive whose files stand in the input, a consumer that never fails sees every file once, in order. */
  lemma {:induction false} EveryFileIsConsumedOnce<T>(
    data: seq<byte>, bodyStart: u64, contents: seq<seq<byte>>, files: seq<ArchiveFileEntry>, n: nat, f: (string, seq<byte>) -> T)
    requires |data| <= U64_MAX && AllStand(files, contents, bodyStart, data) && n <= |files|
    ensures var consume := (s: (), name, bytes) => (s, Ok(f(name, bytes)));
      var p := OneByOne(data, bodyStart, consume, (), files, n);
      p.Progress? && |p.output| == n && forall k :: 0 <= k < n ==> p.output[k] == f(files[k].name, contents[k])
  {
    if n > 0 {
      EveryFileIsConsumedOnce(data, bodyStart, contents, files, n - 1, f);
      assert StandsAt(contents[n - 1], bodyStart + files[n - 1].offset, data);
    }
  }
}
