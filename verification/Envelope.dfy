/** The archive envelope: writing it, reading it back, and the directory opened over it (storage.rs, archive_directory.rs). */
module Envelope {
  import opened Base
  import opened Dedup
  import opened Storage
  import IndexConfig
  import Paths

  // "PFTIDX01"
  const FORMAT_MAGIC: seq<byte> := [0x50, 0x46, 0x54, 0x49, 0x44, 0x58, 0x30, 0x31]
  const FORMAT_VERSION: u32 := 1
  const MAX_HEADER_BYTES: nat := 16 * 1024 * 1024
  const ARCHIVE_WRITE_BUFFER_BYTES: nat := 64 * 1024

  /** JSON serialisation of headers; nothing is assumed of it but that it can be undone. */
  datatype Codec = Codec(encode: IndexHeader -> seq<byte>, decode: seq<byte> -> Option<IndexHeader>)

  ghost predicate Faithful(codec: Codec) {
    forall h: IndexHeader :: codec.decode(codec.encode(h)) == Some(h)
  }

  function ToBe32(n: u32): (b: seq<byte>)
    ensures |b| == 4
  {
    [n / 0x100_0000, n / 0x1_0000 % 0x100, n / 0x100 % 0x100, n % 0x100]
  }

  function FromBe32(b: seq<byte>): (r: u32)
    requires |b| == 4
  {
    b[0] as int * 0x100_0000 + b[1] as int * 0x1_0000 + b[2] as int * 0x100 + b[3] as int
  }

  lemma {:induction false} Be32RoundTrip(n: u32)
    ensures FromBe32(ToBe32(n)) == n
  {
    var a, b, c := n / 0x100, n / 0x1_0000, n / 0x100_0000;
    assert n == a * 0x100 + n % 0x100;
    assert a == b * 0x100 + a % 0x100 && b == a / 0x100;
    assert b == c * 0x100 + b % 0x100 && c == b / 0x100;
  }

  /** The most significant byte comes first. */
  lemma {:induction false} FirstByteIsMostSignificant(b: seq<byte>)
    requires |b| == 4
    ensures FromBe32(b) == b[0] as int * 16_777_216 + b[1] as int * 65_536 + b[2] as int * 256 + b[3] as int
  {
  }

  // ---- Writing ----

  /** A byte sink that only grows. */
  class Output {
    var data: seq<byte>

    constructor ()
      ensures data == []
    {
      data := [];
    }

    method WriteAll(bytes: seq<byte>)
      modifies this
      ensures data == old(data) + bytes
    {
      data := data + bytes;
    }
  }

  function HeaderBytes(codec: Codec, header: IndexHeader): (bytes: seq<byte>)
    requires |codec.encode(header)| <= MAX_HEADER_BYTES
    ensures |bytes| == 16 + |codec.encode(header)|
  {
    FORMAT_MAGIC + ToBe32(FORMAT_VERSION) + ToBe32(|codec.encode(header)|) + codec.encode(header)
  }

  /** The file system holds at least the recorded length of each of the first `n` files. */
  predicate LongEnough(files: seq<ArchiveFileEntry>, contents: seq<seq<byte>>, n: nat) {
    |files| == |contents| && n <= |files| && forall i :: 0 <= i < n ==> files[i].length <= |contents[i]|
  }

  /** The recorded parts of the first `n` files, end to end. */
  function Body(files: seq<ArchiveFileEntry>, contents: seq<seq<byte>>, n: nat): (r: seq<byte>)
    requires LongEnough(files, contents, n)
  {
    if n == 0 then [] else Body(files, contents, n - 1) + contents[n - 1][..files[n - 1].length]
  }

  predicate Writable(codec: Codec, header: IndexHeader, contents: seq<seq<byte>>) {
    |codec.encode(header)| <= MAX_HEADER_BYTES && LongEnough(header.files, contents, |header.files|)
  }

  function EnvelopeBytes(codec: Codec, header: IndexHeader, contents: seq<seq<byte>>): (r: seq<byte>)
    requires Writable(codec, header, contents)
  {
    HeaderBytes(codec, header) + Body(header.files, contents, |header.files|)
  }

  method WriteEnvelopeHeader(output: Output, codec: Codec, header: IndexHeader) returns (r: Result<()>)
    modifies output
    ensures r.Ok? <==> |codec.encode(header)| <= 16_777_216
    ensures output.data == old(output.data) + if r.Ok? then HeaderBytes(codec, header) else []
  {
    var json := codec.encode(header);
    if |json| > MAX_HEADER_BYTES {
      return Err(InvalidStorage);
    }
    output.WriteAll(FORMAT_MAGIC);
    output.WriteAll(ToBe32(FORMAT_VERSION));
    output.WriteAll(ToBe32(|json|));
    output.WriteAll(json);
    r := Ok(());
  }

  /** Copies the first `length` bytes of a file in chunks of at most one buffer; stops if the file ends early. */
  method CopyChunks(output: Output, buffer: array<byte>, content: seq<byte>, length: u64) returns (r: Result<()>)
    requires buffer.Length == ARCHIVE_WRITE_BUFFER_BYTES
    modifies output, buffer
    ensures r.Ok? <==> length <= |content|
    ensures r.Ok? ==> output.data == old(output.data) + content[..length]
    ensures old(output.data) <= output.data
  {
    var remaining, position := length, 0;
    while remaining > 0
      invariant 0 <= remaining && position + remaining == length && position <= |content|
      invariant output.data == old(output.data) + content[..position]
    {
      var chunk := Min(remaining, buffer.Length);
      if position + chunk > |content| {
        return Err(Io);
      }
      forall k | 0 <= k < chunk {
        buffer[k] := content[position + k];
      }
      assert buffer[..chunk] == content[position..position + chunk];
      output.WriteAll(buffer[..chunk]);
      assert content[..position] + content[position..position + chunk] == content[..position + chunk];
      remaining, position := remaining - chunk, position + chunk;
    }
    r := Ok(());
  }

  method WriteBodies(output: Output, files: seq<ArchiveFileEntry>, contents: seq<seq<byte>>) returns (r: Result<()>)
    requires |files| == |contents|
    modifies output
    ensures r.Ok? <==> LongEnough(files, contents, |files|)
    ensures r.Ok? ==> output.data == old(output.data) + Body(files, contents, |files|)
    ensures old(output.data) <= output.data
  {
    var buffer := new byte[ARCHIVE_WRITE_BUFFER_BYTES];
    for i := 0 to |files|
      invariant LongEnough(files, contents, i)
      invariant output.data == old(output.data) + Body(files, contents, i)
    {
      var copied := CopyChunks(output, buffer, contents[i], files[i].length);
      if copied.Err? {
        return copied;
      }
    }
    r := Ok(());
  }

  /** `contents[i]` is what the file system holds for `header.files[i]` when it is read. */
  method WriteEnvelopeFromPaths(output: Output, codec: Codec, header: IndexHeader, contents: seq<seq<byte>>) returns (r: Result<()>)
    modifies output
    ensures r.Ok? <==> Writable(codec, header, contents)
    ensures r.Ok? ==> output.data == old(output.data) + EnvelopeBytes(codec, header, contents)
    ensures old(output.data) <= output.data
  {
    if |header.files| != |contents| {
      return Err(InvalidStorage);
    }
    r := WriteEnvelopeHeader(output, codec, header);
    if r.Ok? {
      r := WriteBodies(output, header.files, contents);
    }
  }

  // ---- Reading ----

  /** The bytes of an input, or failure when the range is not there. */
  function Pread(input: seq<byte>, pos: nat, length: nat): (r: Option<seq<byte>>) {
    if pos + length <= |input| then Some(input[pos..pos + length]) else None
  }

  function HeaderLength(input: seq<byte>): (r: nat)
    requires |input| >= 16
  {
    FromBe32(input[12..16])
  }

  /** Everything a reader demands before it uses a header. */
  predicate WellFormed(codec: Codec, input: seq<byte>) {
    && |input| >= 16
    && input[..8] == FORMAT_MAGIC
    && FromBe32(input[8..12]) == FORMAT_VERSION
    && HeaderLength(input) <= MAX_HEADER_BYTES
    && 16 + HeaderLength(input) <= |input|
    && var header := codec.decode(input[16..16 + HeaderLength(input)]);
    && header.Some? && HeaderAccepted(header.value)
  }

  /** The format, byte for byte: "PFTIDX01", version 1, the header's length with the most significant byte first and at
      most 16 MiB, then the header. */
  lemma {:induction false} WellFormedIff(codec: Codec, input: seq<byte>)
    ensures WellFormed(codec, input) <==>
      && |input| >= 16
      && input[..12] == [0x50, 0x46, 0x54, 0x49, 0x44, 0x58, 0x30, 0x31, 0, 0, 0, 1]
      && var length := input[12] as int * 16_777_216 + input[13] as int * 65_536 + input[14] as int * 256 + input[15] as int;
      && length <= 16_777_216 && 16 + length <= |input|
      && var header := codec.decode(input[16..16 + length]);
      && header.Some? && HeaderAccepted(header.value)
  {
    if |input| >= 16 {
      FirstByteIsMostSignificant(input[8..12]);
      FirstByteIsMostSignificant(input[12..16]);
      VersionOne(input[8..12]);
      MagicAndVersion(input);
      hide FromBe32, HeaderAccepted;
    }
  }

  lemma {:induction false} MagicAndVersion(input: seq<byte>)
    requires |input| >= 16
    ensures input[..12] == [0x50, 0x46, 0x54, 0x49, 0x44, 0x58, 0x30, 0x31, 0, 0, 0, 1] <==>
      input[..8] == FORMAT_MAGIC && input[8..12] == [0, 0, 0, 1]
  {
    var first: seq<byte> := [0x50, 0x46, 0x54, 0x49, 0x44, 0x58, 0x30, 0x31, 0, 0, 0, 1];
    assert first[..8] == FORMAT_MAGIC && first[8..] == [0, 0, 0, 1];
    assert input[..12] == input[..8] + input[8..12];
    assert input[..12][..8] == input[..8] && input[..12][8..] == input[8..12];
  }

  lemma {:induction false} VersionOne(b: seq<byte>)
    requires |b| == 4
    ensures FromBe32(b) == FORMAT_VERSION <==> b == [0, 0, 0, 1]
  {
    FirstByteIsMostSignificant(b);
  }

  /** The first sixteen bytes of what is written. */
  lemma {:induction false} WrittenPrefix(codec: Codec, header: IndexHeader)
    requires |codec.encode(header)| <= MAX_HEADER_BYTES
    ensures var bytes := HeaderBytes(codec, header);
      && bytes[..12] == [0x50, 0x46, 0x54, 0x49, 0x44, 0x58, 0x30, 0x31, 0, 0, 0, 1]
      && bytes[12] as int * 16_777_216 + bytes[13] as int * 65_536 + bytes[14] as int * 256 + bytes[15] as int == |codec.encode(header)|
      && bytes[16..] == codec.encode(header)
  {
    var json := codec.encode(header);
    var bytes := HeaderBytes(codec, header);
    var length := ToBe32(|json|);
    Be32RoundTrip(|json|);
    FirstByteIsMostSignificant(length);
    assert bytes[12..16] == length && bytes[12] == length[0] && bytes[13] == length[1] && bytes[14] == length[2] && bytes[15] == length[3];
    Be32RoundTrip(FORMAT_VERSION);
    VersionOne(ToBe32(FORMAT_VERSION));
  }

  method ReadHeader(codec: Codec, input: seq<byte>) returns (r: Result<(IndexHeader, nat)>)
    ensures r.Ok? <==> WellFormed(codec, input)
    ensures r.Ok? ==>
      && r.value.1 == 16 + HeaderLength(input)
      && codec.decode(input[16..r.value.1]) == Some(r.value.0)
  {
    var fixed := Pread(input, 0, 16);
    if fixed.None? {
      return Err(Io);
    }
    assert fixed.value[..8] == input[..8] && fixed.value[8..12] == input[8..12] && fixed.value[12..16] == input[12..16];
    if fixed.value[..8] != FORMAT_MAGIC || FromBe32(fixed.value[8..12]) != FORMAT_VERSION {
      return Err(InvalidStorage);
    }
    var headerLen := FromBe32(fixed.value[12..16]);
    if headerLen > MAX_HEADER_BYTES {
      return Err(InvalidStorage);
    }
    var json := Pread(input, 16, headerLen);
    if json.None? {
      return Err(Io);
    }
    var header := codec.decode(json.value);
    if header.None? {
      return Err(InvalidStorage);
    }
    var valid := ValidateHeader(header.value);
    if valid.Err? {
      return Err(valid.error);
    }
    r := Ok((header.value, 16 + headerLen));
  }

  // ---- The directory ----

  datatype ArchivedFile = ArchivedFile(start: u64, length: usize)

  type Directory = map<Paths.PathKey, ArchivedFile>

  predicate StartsFit(bodyStart: u64, files: seq<ArchiveFileEntry>, n: nat)
    requires n <= |files|
  {
    forall i :: 0 <= i < n ==> bodyStart + files[i].offset <= U64_MAX
  }

  /** The first `n` files inserted one by one: a later file replaces an earlier one with the same path. */
  function DirectoryUpTo(bodyStart: u64, files: seq<ArchiveFileEntry>, n: nat): (r: Directory)
    requires n <= |files| && StartsFit(bodyStart, files, n)
  {
    if n == 0 then map[]
    else
      DirectoryUpTo(bodyStart, files, n - 1)
        [KeyOf(files[n - 1]) := ArchivedFile(bodyStart + files[n - 1].offset, files[n - 1].length)]
  }

  function DirectoryOf(bodyStart: u64, files: seq<ArchiveFileEntry>): (r: Directory)
    requires StartsFit(bodyStart, files, |files|)
  {
    DirectoryUpTo(bodyStart, files, |files|)
  }

  function KeyOf(file: ArchiveFileEntry): (r: Paths.PathKey) {
    Paths.Components(file.name)
  }

  method OpenDirectory(bodyStart: u64, files: seq<ArchiveFileEntry>) returns (r: Result<Directory>)
    ensures StartsFit(bodyStart, files, |files|) <==> forall file :: file in files ==> bodyStart + file.offset <= 0xFFFF_FFFF_FFFF_FFFF
    ensures r.Ok? <==> StartsFit(bodyStart, files, |files|)
    ensures r.Ok? ==> r.value == DirectoryOf(bodyStart, files)
  {
    var mapped: Directory := map[];
    for i := 0 to |files|
      invariant StartsFit(bodyStart, files, i)
      invariant mapped == DirectoryUpTo(bodyStart, files, i)
    {
      if bodyStart + files[i].offset > U64_MAX {
        return Err(InvalidStorage);
      }
      mapped := mapped[KeyOf(files[i]) := ArchivedFile(bodyStart + files[i].offset, files[i].length)];
    }
    r := Ok(mapped);
  }

  function KeysOf(files: seq<ArchiveFileEntry>): (keys: seq<Paths.PathKey>)
    ensures |keys| == |files| && forall i :: 0 <= i < |files| ==> keys[i] == KeyOf(files[i])
  {
    MapSeq(KeyOf, files)
  }

  /** No two names are the same path. */
  ghost predicate DistinctPaths(files: seq<ArchiveFileEntry>) {
    Distinct(KeysOf(files))
  }

  /** A path finds the file listed last under it. */
  lemma {:induction false} LastListedWins(bodyStart: u64, files: seq<ArchiveFileEntry>, i: nat, n: nat)
    requires i < n <= |files| && StartsFit(bodyStart, files, n)
    requires forall j :: i < j < n ==> KeyOf(files[j]) != KeyOf(files[i])
    ensures var d := DirectoryUpTo(bodyStart, files, n);
      KeyOf(files[i]) in d && d[KeyOf(files[i])] == ArchivedFile(bodyStart + files[i].offset, files[i].length)
    decreases n
  {
    if i < n - 1 {
      LastListedWins(bodyStart, files, i, n - 1);
    }
  }

  lemma {:induction false} DirectoryKeys(bodyStart: u64, files: seq<ArchiveFileEntry>, n: nat)
    requires n <= |files| && StartsFit(bodyStart, files, n)
    ensures DirectoryUpTo(bodyStart, files, n).Keys == Elements(KeysOf(files)[..n])
  {
    if n > 0 {
      DirectoryKeys(bodyStart, files, n - 1);
      var keys := KeysOf(files);
      assert keys[..n] == keys[..n - 1] + [keys[n - 1]];
      assert Elements(keys[..n]) == Elements(keys[..n - 1]) + {keys[n - 1]};
    }
  }

  /** Every listed file keeps an entry of its own exactly when no two names are the same path. */
  lemma {:induction false} EveryFileHasAnEntryIffPathsDistinct(bodyStart: u64, files: seq<ArchiveFileEntry>)
    requires StartsFit(bodyStart, files, |files|)
    ensures |DirectoryOf(bodyStart, files)| == |files| <==> DistinctPaths(files)
  {
    DirectoryKeys(bodyStart, files, |files|);
    assert KeysOf(files)[..|files|] == KeysOf(files);
    DistinctIffAsManyElements(KeysOf(files));
    assert |DirectoryOf(bodyStart, files).Keys| == |DirectoryOf(bodyStart, files)|;
  }

  /** Validation compares names as strings, so it can accept a file that the directory then cannot find. */
  lemma {:induction false} AcceptedNameCanBeShadowed(name: string, bodyStart: u64)
    requires '/' !in name && Paths.PlainName(name) && bodyStart < U64_MAX
    ensures var files := [ArchiveFileEntry(name, 0, 1), ArchiveFileEntry(name + "/", 1, 1)];
      && FilesAccepted(files)
      && Paths.Components(name) in DirectoryOf(bodyStart, files)
      && DirectoryOf(bodyStart, files)[Paths.Components(name)] == ArchivedFile(bodyStart + 1, 1)
      && !DistinctPaths(files)
  {
    var files := [ArchiveFileEntry(name, 0, 1), ArchiveFileEntry(name + "/", 1, 1)];
    Paths.TrailingSlashIsTheSamePath(name);
    LastListedWins(bodyStart, files, 1, 2);
    assert KeysOf(files)[0] == KeysOf(files)[1];
  }

  /** Names without slashes, the only ones a writer lists, never shadow each other. */
  lemma {:induction false} SlashFreeNamesAreDistinctPaths(files: seq<ArchiveFileEntry>)
    requires ValidNames(NamesOf(files)) && forall i :: 0 <= i < |files| ==> '/' !in files[i].name
    ensures DistinctPaths(files)
  {
    forall i, j | 0 <= i < j < |files| ensures KeysOf(files)[i] != KeysOf(files)[j] {
      var names := NamesOf(files);
      assert names[i] != names[j] && Paths.PlainName(names[i]) && Paths.PlainName(names[j]);
      Paths.SlashFreeNamesAreKeys(files[i].name, files[j].name);
    }
  }

  // ---- Round trip ----

  lemma {:induction false} HeaderBytesReadBack(codec: Codec, header: IndexHeader, body: seq<byte>)
    requires |codec.encode(header)| <= MAX_HEADER_BYTES
    ensures var input := HeaderBytes(codec, header) + body;
      && |input| >= 16 && input[..8] == FORMAT_MAGIC
      && FromBe32(input[8..12]) == FORMAT_VERSION
      && HeaderLength(input) == |codec.encode(header)|
      && input[16..16 + |codec.encode(header)|] == codec.encode(header)
  {
    var json := codec.encode(header);
    var input := HeaderBytes(codec, header) + body;
    assert input[8..12] == ToBe32(FORMAT_VERSION);
    assert input[12..16] == ToBe32(|json|);
    Be32RoundTrip(FORMAT_VERSION);
    Be32RoundTrip(|json|);
  }

  predicate ContentsMatch(files: seq<IndexFile>, contents: seq<seq<byte>>) {
    |files| == |contents| && forall i :: 0 <= i < |files| ==> |contents[i]| == files[i].length
  }

  predicate StandsAt(content: seq<byte>, offset: nat, bytes: seq<byte>) {
    Pread(bytes, offset, |content|) == Some(content)
  }

  lemma {:induction false} StandsAtBefore(content: seq<byte>, offset: nat, bytes: seq<byte>, after: seq<byte>)
    requires StandsAt(content, offset, bytes)
    ensures StandsAt(content, offset, bytes + after)
  {
    assert (bytes + after)[offset..offset + |content|] == bytes[offset..offset + |content|];
  }

  lemma {:induction false} StandsAtBehind(content: seq<byte>, offset: nat, before: seq<byte>, bytes: seq<byte>)
    requires StandsAt(content, offset, bytes)
    ensures StandsAt(content, |before| + offset, before + bytes)
  {
    assert (before + bytes)[|before| + offset..|before| + offset + |content|] == bytes[offset..offset + |content|];
  }

  /** In a body, every file stands where the files before it end. */
  lemma {:induction false} BodyHoldsEveryFile(files: seq<ArchiveFileEntry>, contents: seq<seq<byte>>, i: nat, n: nat)
    requires i < n && LongEnough(files, contents, n)
    ensures StandsAt(contents[i][..files[i].length], |Body(files, contents, i)|, Body(files, contents, n))
    decreases n
  {
    var last := contents[n - 1][..files[n - 1].length];
    if i < n - 1 {
      BodyHoldsEveryFile(files, contents, i, n - 1);
      StandsAtBefore(contents[i][..files[i].length], |Body(files, contents, i)|, Body(files, contents, n - 1), last);
    } else {
      assert last[0..|last|] == last;
      StandsAtBehind(last, 0, Body(files, contents, i), last);
    }
  }

  lemma {:induction false} LaidOutBodyLength(files: seq<IndexFile>, contents: seq<seq<byte>>, n: nat)
    requires TotalLength(files) <= U64_MAX && ContentsMatch(files, contents) && n <= |files|
    ensures LongEnough(Layout(files), contents, n)
    ensures |Body(Layout(files), contents, n)| == OffsetOf(files, n)
  {
    if n > 0 {
      LaidOutBodyLength(files, contents, n - 1);
    }
  }

  predicate AllStand(entries: seq<ArchiveFileEntry>, contents: seq<seq<byte>>, bodyStart: nat, input: seq<byte>) {
    && |entries| == |contents|
    && forall k :: 0 <= k < |entries| ==>
      |contents[k]| == entries[k].length && StandsAt(contents[k], bodyStart + entries[k].offset, input)
  }

  lemma {:induction false} LaidOutFileStands(head: seq<byte>, files: seq<IndexFile>, contents: seq<seq<byte>>, k: nat)
    requires TotalLength(files) <= U64_MAX && ContentsMatch(files, contents) && k < |files|
    requires LongEnough(Layout(files), contents, |files|)
    ensures StandsAt(contents[k], |head| + OffsetOf(files, k), head + Body(Layout(files), contents, |files|))
  {
    var entries := Layout(files);
    LaidOutBodyLength(files, contents, k);
    BodyHoldsEveryFile(entries, contents, k, |files|);
    assert contents[k][..entries[k].length] == contents[k];
    StandsAtBehind(contents[k], OffsetOf(files, k), head, Body(entries, contents, |files|));
  }

  /** Behind any header, every laid out file stands at its recorded offset. */
  lemma {:induction false} LaidOutFilesStand(head: seq<byte>, files: seq<IndexFile>, contents: seq<seq<byte>>)
    requires TotalLength(files) <= U64_MAX && ContentsMatch(files, contents)
    ensures LongEnough(Layout(files), contents, |files|)
    ensures AllStand(Layout(files), contents, |head|, head + Body(Layout(files), contents, |files|))
  {
    hide StandsAt, Body, OffsetOf;
    LaidOutBodyLength(files, contents, |files|);
    var whole := head + Body(Layout(files), contents, |files|);
    forall k | 0 <= k < |files| ensures StandsAt(contents[k], |head| + OffsetOf(files, k), whole) {
      LaidOutFileStands(head, files, contents, k);
    }
  }

  /** What a writer records for `files`. */
  function WrittenHeader(metadata: IndexConfig.Metadata, files: seq<IndexFile>): (r: IndexHeader)
    requires TotalLength(files) <= U64_MAX
  {
    IndexHeader(metadata, Layout(files))
  }

  /** A written envelope reads back as the header that was written; the reader rejects it exactly when the header is bad. */
  lemma {:induction false} WrittenEnvelopeReadsBack(codec: Codec, header: IndexHeader, contents: seq<seq<byte>>)
    requires Faithful(codec) && Writable(codec, header, contents)
    ensures var input := EnvelopeBytes(codec, header, contents);
      && (WellFormed(codec, input) <==> HeaderAccepted(header))
      && HeaderLength(input) == |codec.encode(header)|
      && codec.decode(input[16..16 + HeaderLength(input)]) == Some(header)
  {
    HeaderBytesReadBack(codec, header, Body(header.files, contents, |header.files|));
  }

  /** The only headers of a writer that a reader rejects: bad configuration, blank version, no file, or bad names. */
  lemma {:induction false} WrittenHeaderAcceptedIff(metadata: IndexConfig.Metadata, files: seq<IndexFile>)
    requires TotalLength(files) <= U64_MAX
    ensures HeaderAccepted(WrittenHeader(metadata, files)) <==>
      && IndexConfig.Valid(metadata.config) && Trim(metadata.tantivyVersion) != ""
      && files != [] && ValidNames(FileNames(files))
  {
    LayoutIsAccepted(files);
  }

  /** Opening `name` in the directory gives a range of the input that holds exactly `content`. */
  predicate Serves(d: Directory, input: seq<byte>, name: string, content: seq<byte>) {
    var key := Paths.Components(name);
    key in d && Pread(input, d[key].start, d[key].length) == Some(content)
  }

  lemma {:induction false} DirectoryServesEveryFile(
    input: seq<byte>, bodyStart: u64, entries: seq<ArchiveFileEntry>, contents: seq<seq<byte>>, i: nat)
    requires |input| <= U64_MAX && i < |entries| && AllStand(entries, contents, bodyStart, input)
    requires DistinctPaths(entries)
    ensures StartsFit(bodyStart, entries, |entries|)
    ensures Serves(DirectoryOf(bodyStart, entries), input, entries[i].name, contents[i])
  {
    forall k | 0 <= k < |entries| ensures bodyStart + entries[k].offset <= U64_MAX {
      assert StandsAt(contents[k], bodyStart + entries[k].offset, input);
    }
    forall j | i < j < |entries| ensures KeyOf(entries[j]) != KeyOf(entries[i]) {
      assert KeysOf(entries)[i] != KeysOf(entries)[j];
    }
    LastListedWins(bodyStart, entries, i, |entries|);
    assert StandsAt(contents[i], bodyStart + entries[i].offset, input);
  }

  lemma {:induction false} WrittenFilesStand(codec: Codec, metadata: IndexConfig.Metadata, files: seq<IndexFile>, contents: seq<seq<byte>>)
    requires TotalLength(files) <= U64_MAX && ContentsMatch(files, contents)
    requires Writable(codec, WrittenHeader(metadata, files), contents)
    ensures var header := WrittenHeader(metadata, files);
      AllStand(header.files, contents, 16 + |codec.encode(header)|, EnvelopeBytes(codec, header, contents))
  {
    LaidOutFilesStand(HeaderBytes(codec, WrittenHeader(metadata, files)), files, contents);
  }

  /** The directory opened over a written envelope serves every file with its own bytes. */
  lemma {:induction false} WrittenFilesAreServed(
    codec: Codec, metadata: IndexConfig.Metadata, files: seq<IndexFile>, contents: seq<seq<byte>>, i: nat)
    requires TotalLength(files) <= U64_MAX && ContentsMatch(files, contents) && i < |files|
    requires Writable(codec, WrittenHeader(metadata, files), contents)
    requires |EnvelopeBytes(codec, WrittenHeader(metadata, files), contents)| <= U64_MAX
    requires DistinctPaths(Layout(files))
    ensures var header := WrittenHeader(metadata, files);
      var bodyStart := 16 + |codec.encode(header)|;
      && StartsFit(bodyStart, header.files, |header.files|)
      && Serves(DirectoryOf(bodyStart, header.files), EnvelopeBytes(codec, header, contents), files[i].name, contents[i])
  {
    hide DirectoryOf, AllStand, StandsAt, Serves, DistinctPaths;
    var header := WrittenHeader(metadata, files);
    WrittenFilesStand(codec, metadata, files, contents);
    DirectoryServesEveryFile(EnvelopeBytes(codec, header, contents), 16 + |codec.encode(header)|, header.files, contents, i);
  }
}
