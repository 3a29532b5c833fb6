/** The byte coverage check of an archive: an accepted payload is nothing but its records. */
module ZipCoverage {
  import opened Base
  import opened Sorting

  type Byte = n: int | 0 <= n < 256

  type Bytes = seq<Byte>

  const LOCAL_HEADER: Bytes := [0x50, 0x4B, 3, 4]
  const CENTRAL_HEADER: Bytes := [0x50, 0x4B, 1, 2]
  const DATA_DESCRIPTOR: Bytes := [0x50, 0x4B, 7, 8]
  const END_RECORD: Bytes := [0x50, 0x4B, 5, 6]

  const END_RECORD_SIZE := 22
  const MAX_COMMENT_SIZE := 65535
  const LOCAL_FIXED_SIZE := 30
  const CENTRAL_FIXED_SIZE := 46

  datatype ZipError = PolyglotForbidden | ArchiveInvalid

  // ----- Reading bytes

  function Clamp(n: nat, limit: nat): nat {
    if n < limit then n else limit
  }

  /** A Python slice: bounds past the end are cut off. */
  function Slice(p: Bytes, from: nat, to: nat): (r: Bytes)
    ensures from <= to <= |p| ==> r == p[from..to]
  {
    if from <= to then p[Clamp(from, |p|)..Clamp(to, |p|)] else []
  }

  /** `int.from_bytes(..., "little")`. */
  function LittleEndian(b: Bytes): nat {
    if b == [] then 0 else b[0] + 256 * LittleEndian(b[1..])
  }

  function Read(p: Bytes, offset: nat, width: nat): nat {
    LittleEndian(Slice(p, offset, offset + width))
  }

  /** The number in `width` bytes, least significant first. */
  function Encode(n: nat, width: nat): (b: Bytes)
    ensures |b| == width
  {
    if width == 0 then [] else [n % 256] + Encode(n / 256, width - 1)
  }

  function Limit(width: nat): nat {
    if width == 0 then 1 else 256 * Limit(width - 1)
  }

  /** Bytes of a width spell exactly one number, and that number spells them. */
  lemma {:induction false} LittleEndianExact(b: Bytes, n: nat)
    ensures LittleEndian(b) == n <==> n < Limit(|b|) && b == Encode(n, |b|)
  {
    if b != [] {
      var rest := b[1..];
      assert b == [b[0]] + rest;
      LittleEndianExact(rest, n / 256);
      LittleEndianBelow(rest);
      assert n == n % 256 + 256 * (n / 256);
      if b == Encode(n, |b|) {
        assert b[0] == n % 256 && rest == Encode(n / 256, |rest|);
      }
    }
  }

  lemma {:induction false} LittleEndianBelow(b: Bytes)
    ensures LittleEndian(b) < Limit(|b|)
  {
    if b != [] {
      LittleEndianBelow(b[1..]);
    }
  }

  predicate HasAt(p: Bytes, offset: nat, signature: Bytes) {
    Slice(p, offset, offset + 4) == signature
  }

  // ----- The end record

  /** The payload ends with an end record that has no comment. */
  predicate EndsProperly(p: Bytes) {
    && |p| >= END_RECORD_SIZE
    && HasAt(p, |p| - END_RECORD_SIZE, END_RECORD)
    && Read(p, |p| - 2, 2) == 0
  }

  /** `payload.rfind(_END_RECORD, low, high)`. */
  method FindLast(p: Bytes, low: nat, high: nat) returns (found: Option<nat>)
    requires low <= high <= |p|
    ensures found.Some? ==> low <= found.value && found.value + 4 <= high && HasAt(p, found.value, END_RECORD)
    ensures forall k | low <= k && k + 4 <= high && HasAt(p, k, END_RECORD) :: found.Some? && k <= found.value
  {
    var k: int := high - 4;
    while k >= low
      invariant k + 4 <= high
      invariant forall j | low <= j && j + 4 <= high && HasAt(p, j, END_RECORD) :: j <= k
    {
      if HasAt(p, k, END_RECORD) {
        return Some(k);
      }
      k := k - 1;
    }
    return None;
  }

  /** The signature cannot overlap itself. */
  lemma EndRecordsApart(p: Bytes, a: nat, b: nat)
    requires a < b && b + 4 <= |p| && HasAt(p, a, END_RECORD) && HasAt(p, b, END_RECORD)
    ensures a + 4 <= b
  {
    var x, y := p[a..a + 4], p[b..b + 4];
    assert x[0] == p[a] && x[1] == p[a + 1] && x[2] == p[a + 2] && x[3] == p[a + 3];
    assert y[0] == p[b];
  }

  /** The backward scan finds the end record exactly when the payload ends with one that has no comment. */
  method EndRecordOffset(p: Bytes) returns (result: Result<nat, ZipError>)
    ensures result == if EndsProperly(p) then Ok(|p| - END_RECORD_SIZE) else Err(PolyglotForbidden)
  {
    var low := if |p| > END_RECORD_SIZE + MAX_COMMENT_SIZE then |p| - (END_RECORD_SIZE + MAX_COMMENT_SIZE) else 0;
    var cursor := |p|;
    while cursor > low
      invariant low <= cursor <= |p|
      invariant EndsProperly(p) ==> |p| - END_RECORD_SIZE + 4 <= cursor
    {
      hide HasAt;
      var found := FindLast(p, low, cursor);
      if found.None? {
        break;
      }
      var offset := found.value;
      if offset + END_RECORD_SIZE <= |p| {
        var comment := Read(p, offset + 20, 2);
        if offset + END_RECORD_SIZE + comment == |p| {
          if comment != 0 {
            return Err(PolyglotForbidden);
          }
          return Ok(offset);
        }
      }
      if EndsProperly(p) {
        EndRecordsApart(p, |p| - END_RECORD_SIZE, offset);
      }
      cursor := offset;
    }
    return Err(PolyglotForbidden);
  }

  // ----- The central directory

  function EntrySize(p: Bytes, cursor: nat): nat {
    CENTRAL_FIXED_SIZE + Read(p, cursor + 28, 2) + Read(p, cursor + 30, 2)
  }

  /** A directory entry without comment starts here. */
  predicate EntryAt(p: Bytes, cursor: nat) {
    HasAt(p, cursor, CENTRAL_HEADER) && Read(p, cursor + 32, 2) == 0
  }

  /** From `cursor` to `end` there are `n` directory entries, one after the other, and nothing else. */
  predicate DirectoryTiles(p: Bytes, cursor: nat, n: nat, end: nat)
    decreases n
  {
    if n == 0 then cursor == end
    else
      && cursor + CENTRAL_FIXED_SIZE <= end && EntryAt(p, cursor)
      && DirectoryTiles(p, cursor + EntrySize(p, cursor), n - 1, end)
  }

  /** `_validate_central_directory`. */
  method ValidateCentralDirectory(p: Bytes, offset: nat, size: nat, count: nat, end: nat) returns (ok: bool)
    ensures ok <==> offset + size == end && DirectoryTiles(p, offset, count, end)
  {
    hide EntryAt, EntrySize;
    var cursor: nat := offset;
    for n := 0 to count
      invariant DirectoryTiles(p, offset, count, end) <==> DirectoryTiles(p, cursor, count - n, end)
    {
      if cursor + CENTRAL_FIXED_SIZE > end || !EntryAt(p, cursor) {
        return false;
      }
      cursor := cursor + EntrySize(p, cursor);
    }
    return cursor == offset + size && cursor == end;
  }

  // ----- Data descriptors

  /** An archive member as the directory describes it; names are given in both encodings a flag can select. */
  datatype Info = Info(
    offset: int, compressed: nat, uncompressed: nat, crc: nat, flags: nat, compression: nat,
    utf8: Option<Bytes>, cp437: Option<Bytes>)

  datatype Layout = Layout(signed: bool, width: nat)

  const LAYOUTS := [Layout(false, 4), Layout(true, 4), Layout(false, 8), Layout(true, 8)]

  function DescriptorSize(l: Layout): nat {
    (if l.signed then 4 else 0) + 4 + 2 * l.width
  }

  /** The descriptor a writer puts after the data of a member. */
  function Descriptor(info: Info, l: Layout): (b: Bytes)
    ensures |b| == DescriptorSize(l)
  {
    (if l.signed then DATA_DESCRIPTOR else []) + Encode(info.crc, 4) + Encode(info.compressed, l.width) +
      Encode(info.uncompressed, l.width)
  }

  predicate Writable(info: Info, l: Layout) {
    info.crc < Limit(4) && info.compressed < Limit(l.width) && info.uncompressed < Limit(l.width)
  }

  /** The bytes are what a writer would put there in this layout. */
  predicate IsDescriptor(b: Bytes, info: Info, l: Layout) {
    Writable(info, l) && b == Descriptor(info, l)
  }

  predicate ReadsAs(b: Bytes, info: Info, l: Layout) {
    var start := if l.signed then 4 else 0;
    && |b| == DescriptorSize(l)
    && (l.signed ==> Slice(b, 0, 4) == DATA_DESCRIPTOR)
    && Read(b, start, 4) == info.crc
    && Read(b, start + 4, l.width) == info.compressed
    && Read(b, start + 4 + l.width, l.width) == info.uncompressed
  }

  lemma FourParts(b: Bytes, w: Bytes, x: Bytes, y: Bytes, z: Bytes)
    requires |b| == |w| + |x| + |y| + |z|
    ensures b == w + x + y + z <==>
      && b[..|w|] == w && b[|w|..|w| + |x|] == x
      && b[|w| + |x|..|w| + |x| + |y|] == y && b[|w| + |x| + |y|..] == z
  {
    assert b == b[..|w|] + b[|w|..|w| + |x|] + b[|w| + |x|..|w| + |x| + |y|] + b[|w| + |x| + |y|..];
    var all := w + x + y + z;
    assert all[..|w|] == w && all[|w|..|w| + |x|] == x && all[|w| + |x|..|w| + |x| + |y|] == y &&
      all[|w| + |x| + |y|..] == z;
  }

  /** Reading the fields back and comparing is the same as comparing with the bytes a writer would put. */
  lemma DescriptorExact(b: Bytes, info: Info, l: Layout)
    ensures ReadsAs(b, info, l) <==> IsDescriptor(b, info, l)
  {
    hide LittleEndian, Encode, Limit;
    if |b| == DescriptorSize(l) {
      var s := if l.signed then 4 else 0;
      LittleEndianExact(b[s..s + 4], info.crc);
      LittleEndianExact(b[s + 4..s + 4 + l.width], info.compressed);
      LittleEndianExact(b[s + 4 + l.width..], info.uncompressed);
      assert b[s + 4 + l.width..s + 4 + 2 * l.width] == b[s + 4 + l.width..];
      FourParts(b, if l.signed then DATA_DESCRIPTOR else [], Encode(info.crc, 4), Encode(info.compressed, l.width),
                Encode(info.uncompressed, l.width));
    }
  }

  ghost predicate SomeDescriptor(b: Bytes, info: Info) {
    exists l | l in LAYOUTS :: IsDescriptor(b, info, l)
  }

  /** `_descriptor_matches`. */
  method DescriptorMatches(b: Bytes, info: Info) returns (matches: bool)
    ensures matches <==> SomeDescriptor(b, info)
  {
    hide IsDescriptor, Read, Slice;
    for n := 0 to |LAYOUTS|
      invariant forall k | 0 <= k < n :: !IsDescriptor(b, info, LAYOUTS[k])
    {
      var l := LAYOUTS[n];
      DescriptorExact(b, info, l);
      if |b| == DescriptorSize(l) {
        var cursor := 0;
        var signed := true;
        if l.signed {
          signed := Slice(b, 0, 4) == DATA_DESCRIPTOR;
          cursor := 4;
        }
        if signed
           && Read(b, cursor, 4) == info.crc
           && Read(b, cursor + 4, l.width) == info.compressed
           && Read(b, cursor + 4 + l.width, l.width) == info.uncompressed
        {
          assert l in LAYOUTS;
          return true;
        }
      }
    }
    return false;
  }

  // ----- Local records

  predicate Bit(flags: nat, weight: nat)
    requires weight > 0
  {
    flags / weight % 2 == 1
  }

  /** The name bytes the flags ask for; none when the name cannot be written that way. */
  function ExpectedName(info: Info, flags: nat): Option<Bytes> {
    if Bit(flags, 0x800) then info.utf8 else info.cp437
  }

  function DataStart(p: Bytes, offset: nat): nat {
    offset + LOCAL_FIXED_SIZE + Read(p, offset + 26, 2) + Read(p, offset + 28, 2)
  }

  /** The fields of the local header agree with the directory. */
  predicate HeaderAgrees(p: Bytes, offset: nat, info: Info) {
    && Read(p, offset + 6, 2) == info.flags
    && Read(p, offset + 8, 2) == info.compression
    && ExpectedName(info, info.flags) ==
      Some(Slice(p, offset + LOCAL_FIXED_SIZE, offset + LOCAL_FIXED_SIZE + Read(p, offset + 26, 2)))
  }

  /** Header, name, extra field, data and descriptor fill the bytes from `offset` to `next`, with nothing left. */
  ghost predicate LocalFills(p: Bytes, offset: nat, info: Info, next: nat) {
    && offset + LOCAL_FIXED_SIZE <= next && HasAt(p, offset, LOCAL_HEADER) && HeaderAgrees(p, offset, info)
    && DataStart(p, offset) + info.compressed <= next
    && if Bit(info.flags, 8) then
         SomeDescriptor(Slice(p, DataStart(p, offset) + info.compressed, next), info)
       else
         && DataStart(p, offset) + info.compressed == next
         && Read(p, offset + 14, 4) == info.crc
         && Read(p, offset + 18, 4) == info.compressed
         && Read(p, offset + 22, 4) == info.uncompressed
  }

  function NextOffset(ordered: seq<Info>, i: nat, directory: nat): int
    requires i < |ordered|
  {
    if i + 1 < |ordered| then ordered[i + 1].offset else directory
  }

  /** From record `i` at `cursor` on, the records follow one another up to the directory. */
  ghost predicate LocalsTile(p: Bytes, ordered: seq<Info>, i: nat, cursor: nat, directory: nat)
    requires i <= |ordered|
    decreases |ordered| - i
  {
    if i == |ordered| then cursor == directory
    else
      var next := NextOffset(ordered, i, directory);
      && ordered[i].offset == cursor && next >= 0
      && LocalFills(p, cursor, ordered[i], next)
      && LocalsTile(p, ordered, i + 1, next, directory)
  }

  function OffsetLe(a: Info, b: Info): bool {
    a.offset <= b.offset
  }

  /** `_expected_local_name` compared with the bytes after the fixed header. */
  method NameMatches(p: Bytes, nameStart: nat, nameSize: nat, info: Info, flags: nat) returns (matches: bool)
    ensures matches <==> ExpectedName(info, flags) == Some(Slice(p, nameStart, nameStart + nameSize))
  {
    var expected := ExpectedName(info, flags);
    return expected.Some? && Slice(p, nameStart, nameStart + nameSize) == expected.value;
  }

  /** One turn of the loop over the local records. */
  method LocalMatches(p: Bytes, offset: nat, info: Info, next: nat) returns (matches: bool)
    ensures matches <==> LocalFills(p, offset, info, next)
  {
    hide HasAt, Read, SomeDescriptor, Slice, ExpectedName, Bit;
    if offset + LOCAL_FIXED_SIZE > next || !HasAt(p, offset, LOCAL_HEADER) {
      return false;
    }
    var flags, compression := Read(p, offset + 6, 2), Read(p, offset + 8, 2);
    var nameSize, extraSize := Read(p, offset + 26, 2), Read(p, offset + 28, 2);
    var nameStart := offset + LOCAL_FIXED_SIZE;
    var dataStart := nameStart + nameSize + extraSize;
    var dataEnd := dataStart + info.compressed;
    var named := NameMatches(p, nameStart, nameSize, info, flags);
    if flags != info.flags || compression != info.compression || dataStart > next || dataEnd > next || !named {
      return false;
    }
    if Bit(flags, 0x08) {
      matches := DescriptorMatches(Slice(p, dataEnd, next), info);
    } else {
      matches := dataEnd == next && Read(p, offset + 14, 4) == info.crc
                 && Read(p, offset + 18, 4) == info.compressed && Read(p, offset + 22, 4) == info.uncompressed;
    }
  }

  /** `_validate_local_records`. */
  method ValidateLocalRecords(p: Bytes, infos: seq<Info>, directory: nat) returns (ok: bool)
    ensures ok <==> infos != [] && LocalsTile(p, Sort(infos, OffsetLe), 0, 0, directory)
  {
    if infos == [] {
      return false;
    }
    hide LocalFills;
    var ordered := Sort(infos, OffsetLe);
    var cursor: nat := 0;
    for i := 0 to |ordered|
      invariant LocalsTile(p, ordered, 0, 0, directory) <==> LocalsTile(p, ordered, i, cursor, directory)
    {
      var next := NextOffset(ordered, i, directory);
      if ordered[i].offset != cursor || next < 0 {
        return false;
      }
      var matches := LocalMatches(p, cursor, ordered[i], next);
      if !matches {
        return false;
      }
      cursor := next;
    }
    return cursor == directory;
  }

  // ----- The whole archive

  /** What `zipfile` reads from the payload: the members and where the directory starts. */
  datatype Directory = Directory(infos: seq<Info>, start: int)

  /** The end record describes a single-disk archive of `count` members with its directory just before it. */
  predicate EndRecordFits(p: Bytes, end: nat, infos: seq<Info>, start: int) {
    && Read(p, end + 4, 2) == 0 && Read(p, end + 6, 2) == 0
    && Read(p, end + 8, 2) == Read(p, end + 10, 2) == |infos| != 0xFFFF
    && Read(p, end + 12, 4) != 0xFFFFFFFF
    && Read(p, end + 16, 4) == start != 0xFFFFFFFF
    && Read(p, end + 16, 4) + Read(p, end + 12, 4) == end
  }

  /** The payload is the local records, the directory and the end record, one after the other. */
  ghost predicate Tiled(p: Bytes, d: Directory) {
    && EndsProperly(p)
    && var end := |p| - END_RECORD_SIZE;
       && EndRecordFits(p, end, d.infos, d.start) && d.start >= 0
       && DirectoryTiles(p, d.start, |d.infos|, end)
       && d.infos != [] && LocalsTile(p, Sort(d.infos, OffsetLe), 0, 0, d.start)
  }

  method CheckEndRecord(p: Bytes, e: nat, d: Directory) returns (ok: bool)
    ensures ok <==> EndRecordFits(p, e, d.infos, d.start) && d.start >= 0
  {
    hide Read;
    if Read(p, e + 4, 2) != 0 || Read(p, e + 6, 2) != 0 {
      return false;
    }
    var onDisk, count, size, offset := Read(p, e + 8, 2), Read(p, e + 10, 2), Read(p, e + 12, 4), Read(p, e + 16, 4);
    return !(onDisk == 0xFFFF || count == 0xFFFF || size == 0xFFFFFFFF || offset == 0xFFFFFFFF
             || onDisk != count || count != |d.infos| || offset != d.start || offset + size != e);
  }

  /** `validate_zip_record_coverage`; `directory` is absent when `zipfile` refuses the payload. */
  method ValidateZipRecordCoverage(p: Bytes, directory: Option<Directory>) returns (result: Result<(), ZipError>)
    ensures result.Ok? <==> directory.Some? && Tiled(p, directory.value)
    ensures result == Err(ArchiveInvalid) <==> |p| >= 4 && HasAt(p, 0, LOCAL_HEADER) && directory.None?
  {
    TiledStarts(p, directory);
    hide HasAt, Read, DirectoryTiles, LocalsTile, EndsProperly, Sort, EndRecordFits;
    if |p| < 4 || !HasAt(p, 0, LOCAL_HEADER) {
      return Err(PolyglotForbidden);
    }
    if directory.None? {
      return Err(ArchiveInvalid);
    }
    var d := directory.value;
    var end := EndRecordOffset(p);
    if end.Err? {
      return Err(end.error);
    }
    var endOk := CheckEndRecord(p, end.value, d);
    if !endOk {
      return Err(PolyglotForbidden);
    }
    var offset, size, count := Read(p, end.value + 16, 4), Read(p, end.value + 12, 4), Read(p, end.value + 10, 2);
    DirectoryPlace(p, end.value, d);
    var directoryOk := ValidateCentralDirectory(p, offset, size, count, end.value);
    if !directoryOk {
      return Err(PolyglotForbidden);
    }
    var localsOk := ValidateLocalRecords(p, d.infos, offset);
    return if localsOk then Ok(()) else Err(PolyglotForbidden);
  }

  lemma DirectoryPlace(p: Bytes, e: nat, d: Directory)
    requires EndRecordFits(p, e, d.infos, d.start)
    ensures Read(p, e + 16, 4) == d.start && Read(p, e + 10, 2) == |d.infos| &&
      Read(p, e + 16, 4) + Read(p, e + 12, 4) == e
  {
    hide Read;
  }

  /** A tiled payload starts with a local record. */
  lemma TiledStarts(p: Bytes, directory: Option<Directory>)
    ensures directory.Some? && Tiled(p, directory.value) ==> |p| >= 4 && HasAt(p, 0, LOCAL_HEADER)
  {
    hide LocalFills, DirectoryTiles, Read;
    if directory.Some? && Tiled(p, directory.value) {
      var ordered := Sort(directory.value.infos, OffsetLe);
      assert LocalsTile(p, ordered, 0, 0, directory.value.start);
      FirstRecord(p, ordered, directory.value.start);
    }
  }

  lemma FirstRecord(p: Bytes, ordered: seq<Info>, directory: nat)
    requires ordered != [] && LocalsTile(p, ordered, 0, 0, directory)
    ensures HasAt(p, 0, LOCAL_HEADER)
  {
    hide HasAt, HeaderAgrees, SomeDescriptor, Read;
  }

  // ----- No byte outside a record, none in two

  datatype Region = Region(start: nat, end: nat)

  /** Non-empty regions that follow one another from `start` to `end`. */
  predicate Chain(regions: seq<Region>, start: nat, end: nat) {
    if regions == [] then start == end
    else regions[0].start == start && start < regions[0].end && Chain(regions[1..], regions[0].end, end)
  }

  function LocalRegions(ordered: seq<Info>, i: nat, cursor: nat, directory: nat): seq<Region>
    requires i <= |ordered|
    decreases |ordered| - i
  {
    if i == |ordered| then []
    else
      var next := NextOffset(ordered, i, directory);
      if next < cursor then [] else [Region(cursor, next)] + LocalRegions(ordered, i + 1, next, directory)
  }

  function DirectoryRegions(p: Bytes, cursor: nat, n: nat): seq<Region>
    decreases n
  {
    if n == 0 then []
    else [Region(cursor, cursor + EntrySize(p, cursor))] + DirectoryRegions(p, cursor + EntrySize(p, cursor), n - 1)
  }

  /** The records of an archive: members, directory entries, end record. */
  function Regions(p: Bytes, d: Directory): seq<Region>
    requires d.start >= 0 && |p| >= END_RECORD_SIZE
  {
    LocalRegions(Sort(d.infos, OffsetLe), 0, 0, d.start)
    + (DirectoryRegions(p, d.start, |d.infos|) + [Region(|p| - END_RECORD_SIZE, |p|)])
  }

  lemma {:induction false} ChainConcat(a: seq<Region>, b: seq<Region>, start: nat, middle: nat, end: nat)
    requires Chain(a, start, middle) && Chain(b, middle, end)
    ensures Chain(a + b, start, end)
  {
    if a == [] {
      assert a + b == b;
    } else {
      ChainConcat(a[1..], b, a[0].end, middle, end);
      assert (a + b)[1..] == a[1..] + b;
    }
  }

  lemma {:induction false} LocalsChain(p: Bytes, ordered: seq<Info>, i: nat, cursor: nat, directory: nat)
    requires i <= |ordered| && LocalsTile(p, ordered, i, cursor, directory)
    ensures Chain(LocalRegions(ordered, i, cursor, directory), cursor, directory)
    decreases |ordered| - i
  {
    if i < |ordered| {
      var next := NextOffset(ordered, i, directory);
      assert cursor + LOCAL_FIXED_SIZE <= next;
      hide LocalFills;
      LocalsChain(p, ordered, i + 1, next, directory);
      var rest := LocalRegions(ordered, i + 1, next, directory);
      assert ([Region(cursor, next)] + rest)[1..] == rest;
    }
  }

  lemma {:induction false} DirectoryChain(p: Bytes, cursor: nat, n: nat, end: nat)
    requires DirectoryTiles(p, cursor, n, end)
    ensures Chain(DirectoryRegions(p, cursor, n), cursor, end)
    decreases n
  {
    hide EntryAt, Read;
    if n > 0 {
      var next := cursor + EntrySize(p, cursor);
      DirectoryChain(p, next, n - 1, end);
      var rest := DirectoryRegions(p, next, n - 1);
      assert ([Region(cursor, next)] + rest)[1..] == rest;
    }
  }

  predicate Holds(r: Region, byte: nat) {
    r.start <= byte < r.end
  }

  /** In a chain every byte lies in exactly one region. */
  lemma {:induction false} ChainCovers(regions: seq<Region>, start: nat, end: nat, byte: nat) returns (at: nat)
    requires Chain(regions, start, end) && start <= byte < end
    ensures at < |regions| && Holds(regions[at], byte)
    ensures forall i | 0 <= i < |regions| && Holds(regions[i], byte) :: i == at
  {
    if byte < regions[0].end {
      at := 0;
      ChainStartsAfter(regions[1..], regions[0].end, end);
      assert forall i | 1 <= i < |regions| :: regions[i] == regions[1..][i - 1];
    } else {
      var k := ChainCovers(regions[1..], regions[0].end, end, byte);
      at := k + 1;
      assert forall i | 1 <= i < |regions| :: regions[i] == regions[1..][i - 1];
    }
  }

  lemma {:induction false} ChainStartsAfter(regions: seq<Region>, start: nat, end: nat)
    requires Chain(regions, start, end)
    ensures forall i | 0 <= i < |regions| :: regions[i].start >= start
  {
    if regions != [] {
      ChainStartsAfter(regions[1..], regions[0].end, end);
      assert forall i | 1 <= i < |regions| :: regions[i] == regions[1..][i - 1];
    }
  }

  /** An accepted payload is an exact tiling: its records follow one another from the first byte to the last. */
  lemma TiledIsAChain(p: Bytes, d: Directory)
    requires Tiled(p, d)
    ensures d.start >= 0 && |p| >= END_RECORD_SIZE && Chain(Regions(p, d), 0, |p|)
  {
    hide LocalsTile, DirectoryTiles, HasAt, Read, LocalRegions, DirectoryRegions, Sort;
    var end := |p| - END_RECORD_SIZE;
    LocalsChain(p, Sort(d.infos, OffsetLe), 0, 0, d.start);
    DirectoryChain(p, d.start, |d.infos|, end);
    OneRegion(end, |p|);
    ChainConcat(DirectoryRegions(p, d.start, |d.infos|), [Region(end, |p|)], d.start, end, |p|);
    ChainConcat(LocalRegions(Sort(d.infos, OffsetLe), 0, 0, d.start),
                DirectoryRegions(p, d.start, |d.infos|) + [Region(end, |p|)], 0, d.start, |p|);
  }

  lemma OneRegion(start: nat, end: nat)
    requires start < end
    ensures Chain([Region(start, end)], start, end)
  {
    assert [Region(start, end)][1..] == [];
  }

  /** No byte of an accepted payload is outside the records or in two of them. */
  lemma EveryByteInOneRecord(p: Bytes, d: Directory, byte: nat) returns (at: nat)
    requires Tiled(p, d) && byte < |p|
    ensures d.start >= 0 && |p| >= END_RECORD_SIZE
    ensures at < |Regions(p, d)| && Holds(Regions(p, d)[at], byte)
    ensures forall i | 0 <= i < |Regions(p, d)| && Holds(Regions(p, d)[i], byte) :: i == at
  {
    TiledIsAChain(p, d);
    hide Tiled, Regions;
    at := ChainCovers(Regions(p, d), 0, |p|, byte);
  }
}
