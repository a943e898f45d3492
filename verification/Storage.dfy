/** Archive layout and header validation (storage.rs, the layout loop of index.rs). */
module Storage {
  import opened Base
  import IndexConfig
  import OrderedFold
  import Paths

  datatype ArchiveFileEntry = ArchiveFileEntry(name: string, offset: u64, length: u64)

  datatype IndexHeader = IndexHeader(metadata: IndexConfig.Metadata, files: seq<ArchiveFileEntry>)

  // ---- The layout loop of the writer ----

  datatype IndexFile = IndexFile(name: string, length: u64)

  /** The total length of the first `n` files. */
  function OffsetOf(files: seq<IndexFile>, n: nat): (r: nat)
    requires n <= |files|
  {
    if n == 0 then 0 else OffsetOf(files, n - 1) + files[n - 1].length
  }

  function TotalLength(files: seq<IndexFile>): (r: nat) {
    OffsetOf(files, |files|)
  }

  lemma {:induction false} OffsetsAscend(files: seq<IndexFile>, i: nat, j: nat)
    requires i <= j <= |files|
    ensures OffsetOf(files, i) <= OffsetOf(files, j)
    ensures i < j ==> OffsetOf(files, i) + files[i].length <= OffsetOf(files, j)
    decreases j
  {
    if i < j {
      OffsetsAscend(files, i, j - 1);
    }
  }

  function LayoutUpTo(files: seq<IndexFile>, n: nat): (entries: seq<ArchiveFileEntry>)
    requires n <= |files| && OffsetOf(files, n) <= U64_MAX
    ensures |entries| == n
    ensures forall i {:trigger entries[i]} :: 0 <= i < n ==>
      entries[i].name == files[i].name && entries[i].offset == OffsetOf(files, i) && entries[i].length == files[i].length
  {
    if n == 0 then []
    else LayoutUpTo(files, n - 1) + [ArchiveFileEntry(files[n - 1].name, OffsetOf(files, n - 1), files[n - 1].length)]
  }

  /** Files laid end to end: every file starts where the files before it end. */
  function Layout(files: seq<IndexFile>): (entries: seq<ArchiveFileEntry>)
    requires TotalLength(files) <= U64_MAX
  {
    LayoutUpTo(files, |files|)
  }

  method LayOut(files: seq<IndexFile>) returns (r: Result<seq<ArchiveFileEntry>>)
    ensures r.Ok? <==> TotalLength(files) <= U64_MAX
    ensures r.Ok? ==> r.value == Layout(files)
  {
    var offset := 0;
    var entries := [];
    for i := 0 to |files|
      invariant offset == OffsetOf(files, i) <= U64_MAX
      invariant entries == LayoutUpTo(files, i)
    {
      entries := entries + [ArchiveFileEntry(files[i].name, offset, files[i].length)];
      if offset + files[i].length > U64_MAX {
        OffsetsAscend(files, i + 1, |files|);
        return Err(InvalidStorage);
      }
      offset := offset + files[i].length;
    }
    r := Ok(entries);
  }

  // ---- Header validation ----

  datatype FileRange = FileRange(start: nat, end: nat, name: string)

  predicate Proper(r: FileRange) {
    r.start <= r.end
  }

  function RangeOf(file: ArchiveFileEntry): (r: FileRange)
    ensures Proper(r)
  {
    FileRange(file.offset, file.offset + file.length, file.name)
  }

  function InsertByStart(x: FileRange, sorted: seq<FileRange>): (r: seq<FileRange>) {
    if sorted == [] || x.start <= sorted[0].start then [x] + sorted
    else [sorted[0]] + InsertByStart(x, sorted[1..])
  }

  /** `sort_by_key` on the start: the stable sort. */
  function SortByStart(ranges: seq<FileRange>): (r: seq<FileRange>) {
    if ranges == [] then [] else InsertByStart(ranges[0], SortByStart(ranges[1..]))
  }

  predicate SortedByStart(s: seq<FileRange>) {
    forall i, j :: 0 <= i < j < |s| ==> s[i].start <= s[j].start
  }

  lemma {:induction false} InsertMembers(x: FileRange, sorted: seq<FileRange>)
    ensures forall y :: y in InsertByStart(x, sorted) <==> y == x || y in sorted
    ensures |InsertByStart(x, sorted)| == |sorted| + 1
  {
    if !(sorted == [] || x.start <= sorted[0].start) {
      InsertMembers(x, sorted[1..]);
      assert sorted == [sorted[0]] + sorted[1..];
    }
  }

  lemma {:induction false} InsertKeepsSorted(x: FileRange, sorted: seq<FileRange>)
    requires SortedByStart(sorted)
    ensures SortedByStart(InsertByStart(x, sorted))
  {
    if !(sorted == [] || x.start <= sorted[0].start) {
      InsertKeepsSorted(x, sorted[1..]);
      InsertMembers(x, sorted[1..]);
      var rest := InsertByStart(x, sorted[1..]);
      forall j | 0 <= j < |rest| ensures sorted[0].start <= rest[j].start {
        assert rest[j] in rest;
      }
    }
  }

  function WithStart(s: seq<FileRange>, start: nat): (r: seq<FileRange>) {
    if s == [] then [] else (if s[0].start == start then [s[0]] else []) + WithStart(s[1..], start)
  }

  lemma {:induction false} InsertIsStable(x: FileRange, sorted: seq<FileRange>, start: nat)
    ensures WithStart(InsertByStart(x, sorted), start) == WithStart([x] + sorted, start)
  {
    if !(sorted == [] || x.start <= sorted[0].start) {
      InsertIsStable(x, sorted[1..], start);
      assert ([x] + sorted)[1..] == sorted;
      assert ([x] + sorted[1..])[1..] == sorted[1..];
      assert InsertByStart(x, sorted)[1..] == InsertByStart(x, sorted[1..]);
      assert x.start != sorted[0].start;
    }
  }

  /** The sort orders by start and keeps the list order of equal starts. */
  lemma {:induction false} SortIsStable(ranges: seq<FileRange>, start: nat)
    ensures SortedByStart(SortByStart(ranges))
    ensures WithStart(SortByStart(ranges), start) == WithStart(ranges, start)
  {
    if ranges != [] {
      SortIsStable(ranges[1..], start);
      var tail := SortByStart(ranges[1..]);
      InsertKeepsSorted(ranges[0], tail);
      InsertIsStable(ranges[0], tail, start);
      assert ([ranges[0]] + tail)[1..] == tail;
    }
  }

  lemma {:induction false} WithStartMembers(s: seq<FileRange>, start: nat)
    ensures forall r :: r in WithStart(s, start) <==> r in s && r.start == start
  {
    if s != [] {
      WithStartMembers(s[1..], start);
      assert s == [s[0]] + s[1..];
    }
  }

  /** These two facts determine the sort. */
  lemma {:induction false} StableSortIsUnique(a: seq<FileRange>, b: seq<FileRange>)
    requires SortedByStart(a) && SortedByStart(b)
    requires forall start: nat :: WithStart(a, start) == WithStart(b, start)
    ensures a == b
  {
    if a == [] && b == [] {
    } else {
      SameHead(a, b);
      forall start: nat ensures WithStart(a[1..], start) == WithStart(b[1..], start) {
        assert WithStart(a, start) == WithStart(b, start);
        WithStartOfTail(a, start);
        WithStartOfTail(b, start);
      }
      StableSortIsUnique(a[1..], b[1..]);
      assert a == [a[0]] + a[1..] && b == [b[0]] + b[1..];
    }
  }

  lemma {:induction false} WithStartOfTail(s: seq<FileRange>, start: nat)
    requires s != []
    ensures s[0].start == start ==> WithStart(s, start) != []
    ensures WithStart(s[1..], start) == if s[0].start == start then WithStart(s, start)[1..] else WithStart(s, start)
  {
    var tail := WithStart(s[1..], start);
    if s[0].start == start {
      assert WithStart(s, start) == [s[0]] + tail;
    } else {
      assert WithStart(s, start) == [] + tail == tail;
    }
  }

  lemma {:induction false} SameHead(a: seq<FileRange>, b: seq<FileRange>)
    requires SortedByStart(a) && SortedByStart(b) && (a != [] || b != [])
    requires forall start: nat :: WithStart(a, start) == WithStart(b, start)
    ensures a != [] && b != [] && a[0] == b[0]
  {
    if a != [] {
      HeadIsThere(a, b);
    }
    if b != [] {
      HeadIsThere(b, a);
    }
    assert WithStart(a, a[0].start)[0] == a[0] && WithStart(b, b[0].start)[0] == b[0];
  }

  lemma {:induction false} HeadIsThere(a: seq<FileRange>, b: seq<FileRange>)
    requires a != [] && SortedByStart(b) && WithStart(a, a[0].start) == WithStart(b, a[0].start)
    ensures b != [] && b[0].start <= a[0].start
  {
    WithStartMembers(a, a[0].start);
    WithStartMembers(b, a[0].start);
    assert a[0] in WithStart(b, a[0].start);
    var k :| 0 <= k < |b| && b[k] == a[0];
    assert k == 0 || b[0].start <= b[k].start;
  }

  /** What the overlap scan accepts of sorted ranges. */
  predicate Chained(s: seq<FileRange>) {
    forall i, j :: 0 <= i < j < |s| ==> s[i].end <= s[j].start
  }

  /** The range that starts first, or is listed first at equal starts, ends before the other starts. */
  predicate Apart(earlier: FileRange, later: FileRange) {
    if earlier.start <= later.start then earlier.end <= later.start else later.end <= earlier.start
  }

  predicate NoOverlap(ranges: seq<FileRange>) {
    forall i, j :: 0 <= i < j < |ranges| ==> Apart(ranges[i], ranges[j])
  }

  lemma {:induction false} ChainedCons(head: FileRange, tail: seq<FileRange>)
    ensures Chained([head] + tail) <==> Chained(tail) && forall y :: y in tail ==> head.end <= y.start
  {
    var r := [head] + tail;
    if Chained(r) {
      forall i, j | 0 <= i < j < |tail| ensures tail[i].end <= tail[j].start {
        assert r[i + 1].end <= r[j + 1].start;
      }
      forall y | y in tail ensures head.end <= y.start {
        var k :| 0 <= k < |tail| && tail[k] == y;
        assert r[0].end <= r[k + 1].start;
      }
    }
    if Chained(tail) && forall y :: y in tail ==> head.end <= y.start {
      forall i, j | 0 <= i < j < |r| ensures r[i].end <= r[j].start {
        assert r[j] == tail[j - 1] && r[j] in tail;
        if i > 0 {
          assert r[i] == tail[i - 1];
        }
      }
    }
  }

  lemma {:induction false} InsertChained(x: FileRange, sorted: seq<FileRange>)
    requires SortedByStart(sorted) && Proper(x) && forall r :: r in sorted ==> Proper(r)
    ensures Chained(InsertByStart(x, sorted)) <==> Chained(sorted) && forall y :: y in sorted ==> Apart(x, y)
  {
    if sorted == [] || x.start <= sorted[0].start {
      ChainedCons(x, sorted);
      forall y | y in sorted ensures x.start <= y.start {
      }
    } else {
      var head, tail := sorted[0], sorted[1..];
      assert sorted == [head] + tail;
      InsertChained(x, tail);
      InsertMembers(x, tail);
      ChainedCons(head, tail);
      ChainedCons(head, InsertByStart(x, tail));
      assert forall y :: y in sorted <==> y == head || y in tail;
      assert x in InsertByStart(x, tail);
      assert InsertByStart(x, sorted) == [head] + InsertByStart(x, tail);
    }
  }

  lemma {:induction false} SortMembers(ranges: seq<FileRange>)
    ensures forall y :: y in SortByStart(ranges) <==> y in ranges
    ensures |SortByStart(ranges)| == |ranges|
  {
    if ranges != [] {
      SortMembers(ranges[1..]);
      InsertMembers(ranges[0], SortByStart(ranges[1..]));
      assert ranges == [ranges[0]] + ranges[1..];
    }
  }

  lemma {:induction false} NoOverlapCons(x: FileRange, rest: seq<FileRange>)
    ensures NoOverlap([x] + rest) <==> NoOverlap(rest) && forall y :: y in rest ==> Apart(x, y)
  {
    hide Apart;
    var r := [x] + rest;
    if NoOverlap(r) {
      forall i, j | 0 <= i < j < |rest| ensures Apart(rest[i], rest[j]) {
        assert Apart(r[i + 1], r[j + 1]);
      }
      forall y | y in rest ensures Apart(x, y) {
        var k :| 0 <= k < |rest| && rest[k] == y;
        assert Apart(r[0], r[k + 1]);
      }
    } else {
      var i, j :| 0 <= i < j < |r| && !Apart(r[i], r[j]);
      assert r[j] == rest[j - 1] && (i > 0 ==> r[i] == rest[i - 1]);
    }
  }

  /** Scanning the sorted ranges accepts exactly the lists in which no two ranges overlap. */
  lemma {:induction false} ScanAcceptsIffNoOverlap(ranges: seq<FileRange>)
    requires forall r :: r in ranges ==> Proper(r)
    ensures Chained(SortByStart(ranges)) <==> NoOverlap(ranges)
  {
    if ranges != [] {
      var x, rest := ranges[0], ranges[1..];
      assert ranges == [x] + rest;
      ScanAcceptsIffNoOverlap(rest);
      SortIsStable(rest, 0);
      SortMembers(rest);
      InsertChained(x, SortByStart(rest));
      NoOverlapCons(x, rest);
    }
  }

  function RangesOf(files: seq<ArchiveFileEntry>): (ranges: seq<FileRange>)
    ensures |ranges| == |files| && forall i :: 0 <= i < |files| ==> ranges[i] == RangeOf(files[i])
  {
    MapSeq(RangeOf, files)
  }

  predicate ValidNames(names: seq<string>) {
    && (forall i :: 0 <= i < |names| ==> Paths.PlainName(names[i]))
    && (forall i, j :: 0 <= i < j < |names| ==> names[i] != names[j])
  }

  predicate EndsFit(files: seq<ArchiveFileEntry>) {
    forall i :: 0 <= i < |files| ==> files[i].offset + files[i].length <= U64_MAX
  }

  function NamesOf(files: seq<ArchiveFileEntry>): (names: seq<string>)
    ensures |names| == |files| && forall i :: 0 <= i < |files| ==> names[i] == files[i].name
  {
    MapSeq((f: ArchiveFileEntry) => f.name, files)
  }

  predicate FilesAccepted(files: seq<ArchiveFileEntry>) {
    && files != []
    && ValidNames(NamesOf(files))
    && EndsFit(files)
    && NoOverlap(RangesOf(files))
  }

  predicate HeaderAccepted(header: IndexHeader) {
    && IndexConfig.Valid(header.metadata.config)
    && Trim(header.metadata.tantivyVersion) != ""
    && FilesAccepted(header.files)
  }

  /** The overlap scan: sort by start, then compare every start with the previous end. */
  method ScanForOverlap(ranges: seq<FileRange>) returns (ok: bool)
    requires forall r :: r in ranges ==> Proper(r)
    ensures ok <==> NoOverlap(ranges)
  {
    ScanAcceptsIffNoOverlap(ranges);
    SortMembers(ranges);
    var sorted := SortByStart(ranges);
    var previousEnd := 0;
    for i := 0 to |sorted|
      invariant previousEnd == if i == 0 then 0 else sorted[i - 1].end
      invariant forall j, k :: 0 <= j < k < i ==> sorted[j].end <= sorted[k].start
      invariant forall k :: 0 <= k < i ==> sorted[k].end <= previousEnd
    {
      assert Proper(sorted[i]) by {
        assert sorted[i] in sorted;
      }
      if sorted[i].start < previousEnd {
        return false;
      }
      previousEnd := sorted[i].end;
    }
    ok := true;
  }

  method ValidateEntries(files: seq<ArchiveFileEntry>) returns (ok: bool, ranges: seq<FileRange>)
    ensures ok <==> ValidNames(NamesOf(files)) && EndsFit(files)
    ensures ok ==> ranges == RangesOf(files)
  {
    hide Paths.PlainName, MapSeq, NamesOf, RangesOf, RangeOf;
    var seen: set<string> := {};
    ghost var names := NamesOf(files);
    ranges := [];
    for i := 0 to |files|
      invariant forall n :: n in seen <==> exists k :: 0 <= k < i && names[k] == n
      invariant forall k :: 0 <= k < i ==> Paths.PlainName(names[k])
      invariant forall j, k :: 0 <= j < k < i ==> names[j] != names[k]
      invariant forall k :: 0 <= k < i ==> files[k].offset + files[k].length <= U64_MAX
      invariant |ranges| == i && forall k :: 0 <= k < i ==> ranges[k] == RangeOf(files[k])
    {
      var name := files[i].name;
      assert names[i] == name;
      if !Paths.PlainName(name) || name in seen || files[i].offset + files[i].length > U64_MAX {
        return false, [];
      }
      seen := seen + {name};
      ranges := ranges + [RangeOf(files[i])];
    }
    ok := true;
  }

  method ValidateHeader(header: IndexHeader) returns (r: Result<()>)
    ensures r.Ok? <==> HeaderAccepted(header)
    ensures r.Err? ==> r.error.InvalidStorage? || r.error.InvalidOption?
  {
    var complaint := IndexConfig.Validate(header.metadata.config);
    if complaint.Some? {
      return Err(InvalidOption(complaint.value));
    }
    if Trim(header.metadata.tantivyVersion) == "" || header.files == [] {
      return Err(InvalidStorage);
    }
    var valid, ranges := ValidateEntries(header.files);
    if !valid {
      return Err(InvalidStorage);
    }
    var disjoint := ScanForOverlap(ranges);
    r := if disjoint then Ok(()) else Err(InvalidStorage);
  }

  /** All that is demanded of a header: a valid configuration, an engine version, files, plain and distinct names, ends
      within 64 bits, and of two files the one that starts first, or is listed first at equal starts, ends before the other. */
  lemma {:induction false} HeaderAcceptedIff(header: IndexHeader)
    ensures HeaderAccepted(header) <==>
      && IndexConfig.Valid(header.metadata.config)
      && Trim(header.metadata.tantivyVersion) != ""
      && header.files != []
      && (forall f :: f in header.files ==> Paths.PlainName(f.name) && f.offset + f.length <= 0xFFFF_FFFF_FFFF_FFFF)
      && (forall i, j :: 0 <= i < j < |header.files| ==> header.files[i].name != header.files[j].name)
      && (forall i, j :: 0 <= i < j < |header.files| ==>
            var f, g := header.files[i], header.files[j];
            if f.offset <= g.offset then f.offset + f.length <= g.offset else g.offset + g.length <= f.offset)
  {
    hide IndexConfig.Valid, Trim, Paths.PlainName;
    FilesAcceptedIff(header.files);
  }

  lemma {:induction false} FilesAcceptedIff(files: seq<ArchiveFileEntry>)
    ensures FilesAccepted(files) <==>
      && files != []
      && (forall f :: f in files ==> Paths.PlainName(f.name) && f.offset + f.length <= 0xFFFF_FFFF_FFFF_FFFF)
      && (forall i, j :: 0 <= i < j < |files| ==> files[i].name != files[j].name)
      && (forall i, j :: 0 <= i < j < |files| ==>
            var f, g := files[i], files[j];
            if f.offset <= g.offset then f.offset + f.length <= g.offset else g.offset + g.length <= f.offset)
  {
    hide Paths.PlainName;
    NamesAndEndsIff(files);
    var names, ranges := NamesOf(files), RangesOf(files);
    assert NoOverlap(ranges) <==> forall i, j :: 0 <= i < j < |files| ==> Apart(RangeOf(files[i]), RangeOf(files[j]));
    hide ValidNames, EndsFit, NoOverlap;
  }

  lemma {:induction false} FilesAcceptedFrom(files: seq<ArchiveFileEntry>)
    requires files != []
    requires forall f :: f in files ==> Paths.PlainName(f.name) && f.offset + f.length <= U64_MAX
    requires forall i, j :: 0 <= i < j < |files| ==> files[i].name != files[j].name && Apart(RangeOf(files[i]), RangeOf(files[j]))
    ensures FilesAccepted(files)
  {
    NamesAndEndsIff(files);
    hide Paths.PlainName, Apart;
  }

  lemma {:induction false} NamesAndEndsIff(files: seq<ArchiveFileEntry>)
    ensures ValidNames(NamesOf(files)) && EndsFit(files) <==>
      && (forall f :: f in files ==> Paths.PlainName(f.name) && f.offset + f.length <= 0xFFFF_FFFF_FFFF_FFFF)
      && (forall i, j :: 0 <= i < j < |files| ==> files[i].name != files[j].name)
  {
    hide Paths.PlainName;
    var names := NamesOf(files);
    if ValidNames(names) && EndsFit(files) {
      forall i, j | 0 <= i < j < |files| ensures files[i].name != files[j].name {
        assert names[i] != names[j];
      }
      forall f | f in files ensures Paths.PlainName(f.name) {
        var i :| 0 <= i < |files| && files[i] == f;
        assert Paths.PlainName(names[i]);
      }
    } else if forall f :: f in files ==> Paths.PlainName(f.name) && f.offset + f.length <= 0xFFFF_FFFF_FFFF_FFFF {
      assert forall i :: 0 <= i < |files| ==> files[i] in files;
      var i, j :| 0 <= i < j < |names| && names[i] == names[j];
      assert files[i].name == files[j].name;
    }
  }

  /** Accepted files occupy disjoint ranges, and not even an empty file lies inside another one. */
  lemma {:induction false} AcceptedFilesAreDisjoint(files: seq<ArchiveFileEntry>, i: nat, j: nat)
    requires FilesAccepted(files) && i < |files| && j < |files| && i != j
    ensures files[i].offset + files[i].length <= files[j].offset || files[j].offset + files[j].length <= files[i].offset
  {
    var ranges := RangesOf(files);
    if i < j {
      assert Apart(ranges[i], ranges[j]);
    } else {
      assert Apart(ranges[j], ranges[i]);
    }
  }

  /** An empty file may share its start with a longer one only when it is listed before it. */
  lemma {:induction false} EmptyFileMustBeListedFirst(empty: ArchiveFileEntry, full: ArchiveFileEntry)
    requires Paths.PlainName(empty.name) && Paths.PlainName(full.name) && empty.name != full.name
    requires empty.length == 0 < full.length && empty.offset == full.offset && full.offset + full.length <= U64_MAX
    ensures FilesAccepted([empty, full]) && !FilesAccepted([full, empty])
  {
    hide Paths.PlainName;
    var r := RangesOf([full, empty]);
    assert !Apart(r[0], r[1]);
  }

  /** No empty file starts where a longer one starts. */
  predicate NoSharedStart(files: seq<ArchiveFileEntry>) {
    forall f, g :: f in files && g in files && f.offset == g.offset && f.length == 0 ==> g.length == 0
  }

  ghost predicate EveryListingAccepted(files: seq<ArchiveFileEntry>) {
    forall other :: multiset(other) == multiset(files) ==> FilesAccepted(other)
  }

  /** The listing order of accepted files is irrelevant exactly when no empty file starts where a longer one does. */
  lemma {:induction false} EveryListingAcceptedIff(files: seq<ArchiveFileEntry>)
    requires FilesAccepted(files)
    ensures EveryListingAccepted(files) <==> NoSharedStart(files)
  {
    hide FilesAccepted;
    if NoSharedStart(files) {
      forall other | multiset(other) == multiset(files) ensures FilesAccepted(other) {
        RelistedAccepted(files, other);
      }
    } else {
      var f, g :| f in files && g in files && f.offset == g.offset && f.length == 0 && g.length != 0;
      var rest := OrderedFold.LeaveTwoOut(files, g, f);
      LongFirstIsRejected(rest, g, f);
      assert multiset(rest + [g] + [f]) == multiset(files);
    }
  }

  lemma {:induction false} LongFirstIsRejected(rest: seq<ArchiveFileEntry>, full: ArchiveFileEntry, empty: ArchiveFileEntry)
    requires empty.length == 0 < full.length && empty.offset == full.offset
    ensures !FilesAccepted(rest + [full] + [empty])
  {
    var files := rest + [full] + [empty];
    var n, ranges := |rest|, RangesOf(files);
    assert files[n] == full && files[n + 1] == empty;
    assert !Apart(ranges[n], ranges[n + 1]);
  }

  lemma {:induction false} RelistedAccepted(files: seq<ArchiveFileEntry>, other: seq<ArchiveFileEntry>)
    requires FilesAccepted(files) && NoSharedStart(files) && multiset(other) == multiset(files)
    ensures FilesAccepted(other)
  {
    assert |files| == |multiset(files)| == |multiset(other)| == |other|;
    hide FilesAccepted, NoSharedStart, Paths.PlainName, Apart, RangeOf;
    forall f | f in other ensures f in files {
      assert f in multiset(other);
      assert f in multiset(files);
    }
    forall i, j | 0 <= i < j < |other|
      ensures other[i].name != other[j].name && Apart(RangeOf(other[i]), RangeOf(other[j]))
    {
      var p, q := OrderedFold.PairIn(files, other, i, j);
      RelistedPair(files, p, q);
    }
    FilesAcceptedIff(files);
    FilesAcceptedFrom(other);
  }

  lemma {:induction false} RelistedPair(files: seq<ArchiveFileEntry>, p: nat, q: nat)
    requires FilesAccepted(files) && NoSharedStart(files) && p < |files| && q < |files| && p != q
    ensures files[p].name != files[q].name && Apart(RangeOf(files[p]), RangeOf(files[q]))
  {
    hide Paths.PlainName;
    AcceptedFilesAreDisjoint(files, p, q);
    var names := NamesOf(files);
    if p < q {
      assert names[p] != names[q];
    } else {
      assert names[q] != names[p];
    }
    assert files[p] in files && files[q] in files;
  }

  /** Such files exist. */
  lemma {:induction false} ListingOrderDecides()
    ensures var empty, full := ArchiveFileEntry("a", 0, 0), ArchiveFileEntry("b", 0, 1);
      FilesAccepted([empty, full]) && !FilesAccepted([full, empty])
  {
    Paths.SlashFreeNameIsPlain("a");
    Paths.SlashFreeNameIsPlain("b");
    EmptyFileMustBeListedFirst(ArchiveFileEntry("a", 0, 0), ArchiveFileEntry("b", 0, 1));
  }

  function FileNames(files: seq<IndexFile>): (names: seq<string>)
    ensures |names| == |files| && forall i :: 0 <= i < |files| ==> names[i] == files[i].name
  {
    MapSeq((f: IndexFile) => f.name, files)
  }

  lemma {:induction false} LayoutHasNoOverlap(files: seq<IndexFile>)
    requires TotalLength(files) <= U64_MAX
    ensures NoOverlap(RangesOf(Layout(files)))
  {
    var ranges := RangesOf(Layout(files));
    forall i, j | 0 <= i < j < |files| ensures Apart(ranges[i], ranges[j]) {
      OffsetsAscend(files, i, j);
    }
  }

  /** Whatever the writer lays out is free of overlaps, empty files included: only names can be refused. */
  lemma {:induction false} LayoutIsAccepted(files: seq<IndexFile>)
    requires TotalLength(files) <= U64_MAX
    ensures FilesAccepted(Layout(files)) <==> files != [] && ValidNames(FileNames(files))
  {
    LayoutHasNoOverlap(files);
    assert NamesOf(Layout(files)) == FileNames(files);
    forall i | 0 <= i < |files| ensures OffsetOf(files, i) + files[i].length <= U64_MAX {
      OffsetsAscend(files, i, |files|);
    }
  }

  /** The laid out files tile the body: the first starts at zero, each ends where the next starts. */
  lemma {:induction false} LayoutTilesTheBody(files: seq<IndexFile>)
    requires files != [] && TotalLength(files) <= U64_MAX
    ensures var e := Layout(files);
      && e[0].offset == 0
      && (forall i :: 1 <= i < |files| ==> e[i].offset == e[i - 1].offset + e[i - 1].length)
      && e[|files| - 1].offset + e[|files| - 1].length == TotalLength(files)
  {
  }
}
