/** The other direction: every archive a plain writer produces passes the coverage check. */
module ZipWriter {
  import opened Base
  import opened Sorting
  import opened ZipCoverage

  // ----- Fields

  /** A number and the bytes it takes. */
  datatype Field = Field(n: nat, width: nat)

  predicate FieldsFit(fields: seq<Field>) {
    forall i | 0 <= i < |fields| :: fields[i].n < Limit(fields[i].width)
  }

  function Width(fields: seq<Field>): nat {
    if fields == [] then 0 else fields[0].width + Width(fields[1..])
  }

  function Pack(fields: seq<Field>): (b: Bytes)
    ensures |b| == Width(fields)
  {
    if fields == [] then [] else Encode(fields[0].n, fields[0].width) + Pack(fields[1..])
  }

  lemma Inside(p: Bytes, offset: nat, a: Bytes, b: Bytes)
    requires offset + |a| + |b| <= |p| && p[offset..offset + |a| + |b|] == a + b
    ensures p[offset..offset + |a|] == a && p[offset + |a|..offset + |a| + |b|] == b
  {
    var whole := p[offset..offset + |a| + |b|];
    assert p[offset..offset + |a|] == whole[..|a|] && p[offset + |a|..offset + |a| + |b|] == whole[|a|..];
  }

  lemma ReadEncoded(p: Bytes, offset: nat, n: nat, width: nat)
    requires n < Limit(width) && offset + width <= |p| && p[offset..offset + width] == Encode(n, width)
    ensures Read(p, offset, width) == n
  {
    LittleEndianExact(p[offset..offset + width], n);
  }

  /** A field read back from packed bytes is the number that was packed. */
  lemma {:induction false} ReadPacked(p: Bytes, offset: nat, fields: seq<Field>, i: nat)
    requires FieldsFit(fields) && i < |fields| && offset + Width(fields) <= |p| &&
      p[offset..offset + Width(fields)] == Pack(fields)
    ensures Read(p, offset + Width(fields[..i]), fields[i].width) == fields[i].n
    decreases i
  {
    hide Read, Encode, Limit;
    var first, rest := fields[0], fields[1..];
    Inside(p, offset, Encode(first.n, first.width), Pack(rest));
    if i == 0 {
      assert fields[..0] == [];
      ReadEncoded(p, offset, first.n, first.width);
    } else {
      assert fields[..i][0] == first && fields[..i][1..] == rest[..i - 1];
      ReadPacked(p, offset + first.width, rest, i - 1);
    }
  }

  // ----- Members

  /** A member as a writer is given it; `layout` is used when the flags announce a data descriptor. */
  datatype Member = Member(
    version: nat, flags: nat, compression: nat, time: nat, date: nat, crc: nat, uncompressed: nat,
    name: Bytes, extra: Bytes, data: Bytes, layout: Layout)

  function InfoOf(m: Member, offset: nat): Info {
    Info(offset, |m.data|, m.uncompressed, m.crc, m.flags, m.compression, Some(m.name), Some(m.name))
  }

  /** The fixed part of a local record after its signature; sizes are deferred to the descriptor if there is one. */
  function LocalFields(m: Member): seq<Field> {
    var deferred := Bit(m.flags, 8);
    [Field(m.version, 2), Field(m.flags, 2), Field(m.compression, 2), Field(m.time, 2), Field(m.date, 2),
     Field(if deferred then 0 else m.crc, 4), Field(if deferred then 0 else |m.data|, 4),
     Field(if deferred then 0 else m.uncompressed, 4),
     Field(|m.name|, 2), Field(|m.extra|, 2)]
  }

  function Tail(m: Member): Bytes {
    if Bit(m.flags, 8) then Descriptor(InfoOf(m, 0), m.layout) else []
  }

  function LocalRecord(m: Member): Bytes {
    LOCAL_HEADER + Pack(LocalFields(m)) + (m.name + m.extra + m.data + Tail(m))
  }

  /** The numbers fit the fields they are written to. */
  predicate MemberFits(m: Member) {
    && FieldsFit(LocalFields(m))
    && (Bit(m.flags, 8) ==> m.layout in LAYOUTS && Writable(InfoOf(m, 0), m.layout))
  }

  lemma WidthStep(fields: seq<Field>, i: nat)
    requires i < |fields|
    ensures Width(fields[..i + 1]) == Width(fields[..i]) + fields[i].width
  {
    WidthConcat(fields[..i], [fields[i]]);
    assert fields[..i + 1] == fields[..i] + [fields[i]];
  }

  lemma {:induction false} WidthConcat(a: seq<Field>, b: seq<Field>)
    ensures Width(a + b) == Width(a) + Width(b)
  {
    if a == [] {
      assert a + b == b;
    } else {
      WidthConcat(a[1..], b);
      assert (a + b)[1..] == a[1..] + b;
    }
  }

  lemma WidthSteps(fields: seq<Field>)
    ensures Width(fields[..0]) == 0
    ensures forall i | 0 <= i < |fields| :: Width(fields[..i + 1]) == Width(fields[..i]) + fields[i].width
    ensures fields[..|fields|] == fields
  {
    forall i | 0 <= i < |fields|
      ensures Width(fields[..i + 1]) == Width(fields[..i]) + fields[i].width
    {
      WidthStep(fields, i);
    }
  }

  lemma LocalWidth(m: Member)
    ensures
      var f := LocalFields(m);
      && Width(f) == 26 && Width(f[..1]) == 2 && Width(f[..2]) == 4 && Width(f[..5]) == 10 && Width(f[..6]) == 14
      && Width(f[..7]) == 18 && Width(f[..8]) == 22 && Width(f[..9]) == 24
  {
    var f := LocalFields(m);
    WidthSteps(f);
    hide Width;
    assert Width(f[..0 + 1]) == 2 && Width(f[..1 + 1]) == 4 && Width(f[..2 + 1]) == 6 && Width(f[..3 + 1]) == 8;
    assert Width(f[..4 + 1]) == 10 && Width(f[..5 + 1]) == 14 && Width(f[..6 + 1]) == 18 && Width(f[..7 + 1]) == 22;
    assert Width(f[..8 + 1]) == 24 && Width(f[..9 + 1]) == 26;
  }

  /** The record lies in the payload at an offset. */
  predicate LiesAt(p: Bytes, offset: nat, b: Bytes) {
    offset + |b| <= |p| && p[offset..offset + |b|] == b
  }

  lemma LiesInside(p: Bytes, offset: nat, a: Bytes, b: Bytes)
    requires LiesAt(p, offset, a + b)
    ensures LiesAt(p, offset, a) && LiesAt(p, offset + |a|, b)
  {
    Inside(p, offset, a, b);
  }

  /** Reading back the fixed part of a local record. */
  lemma LocalHeaderReads(p: Bytes, offset: nat, m: Member)
    requires MemberFits(m) && LiesAt(p, offset, LocalRecord(m))
    ensures HasAt(p, offset, LOCAL_HEADER)
    ensures Read(p, offset + 6, 2) == m.flags && Read(p, offset + 8, 2) == m.compression
    ensures Read(p, offset + 26, 2) == |m.name| && Read(p, offset + 28, 2) == |m.extra|
    ensures !Bit(m.flags, 8) ==>
      Read(p, offset + 14, 4) == m.crc && Read(p, offset + 18, 4) == |m.data| &&
        Read(p, offset + 22, 4) == m.uncompressed
    ensures LiesAt(p, offset + 30, m.name + m.extra + m.data + Tail(m))
  {
    hide Read, Bit, Pack;
    var f, rest := LocalFields(m), m.name + m.extra + m.data + Tail(m);
    LocalWidth(m);
    LiesInside(p, offset, LOCAL_HEADER + Pack(f), rest);
    LiesInside(p, offset, LOCAL_HEADER, Pack(f));
    assert HasAt(p, offset, LOCAL_HEADER);
    hide Width, FieldsFit;
    ReadPacked(p, offset + 4, f, 1);
    ReadPacked(p, offset + 4, f, 2);
    ReadPacked(p, offset + 4, f, 5);
    ReadPacked(p, offset + 4, f, 6);
    ReadPacked(p, offset + 4, f, 7);
    ReadPacked(p, offset + 4, f, 8);
    ReadPacked(p, offset + 4, f, 9);
  }

  lemma SliceLies(p: Bytes, from: nat, b: Bytes)
    requires LiesAt(p, from, b)
    ensures Slice(p, from, from + |b|) == b
  {
  }

  lemma FourLie(p: Bytes, from: nat, a: Bytes, b: Bytes, c: Bytes, d: Bytes)
    requires LiesAt(p, from, a + b + c + d)
    ensures Slice(p, from, from + |a|) == a
    ensures Slice(p, from + |a| + |b| + |c|, from + |a| + |b| + |c| + |d|) == d
  {
    hide LiesAt, Slice;
    LiesInside(p, from, a + b + c, d);
    LiesInside(p, from, a + b, c);
    LiesInside(p, from, a, b);
    SliceLies(p, from, a);
    SliceLies(p, from + |a| + |b| + |c|, d);
  }

  lemma RecordLength(m: Member)
    ensures |LocalRecord(m)| == 30 + |m.name| + |m.extra| + |m.data| + |Tail(m)|
  {
    LocalWidth(m);
    hide Width, Pack, Tail;
  }

  /** A written local record fills its place. */
  lemma WrittenLocalFills(p: Bytes, offset: nat, m: Member)
    requires MemberFits(m) && LiesAt(p, offset, LocalRecord(m))
    ensures LocalFills(p, offset, InfoOf(m, offset), offset + |LocalRecord(m)|)
  {
    hide Read, Bit, HasAt, Slice, SomeDescriptor, LocalRecord, Tail, LiesAt, MemberFits;
    LocalHeaderReads(p, offset, m);
    FourLie(p, offset + 30, m.name, m.extra, m.data, Tail(m));
    RecordLength(m);
    if Bit(m.flags, 8) {
      TailIsDescriptor(m, offset);
    } else {
      NoTail(m);
    }
  }

  lemma NoTail(m: Member)
    requires !Bit(m.flags, 8)
    ensures |Tail(m)| == 0
  {
  }

  lemma TailIsDescriptor(m: Member, offset: nat)
    requires MemberFits(m) && Bit(m.flags, 8)
    ensures SomeDescriptor(Tail(m), InfoOf(m, offset))
  {
    hide Bit, FieldsFit, Limit;
    assert Descriptor(InfoOf(m, offset), m.layout) == Descriptor(InfoOf(m, 0), m.layout);
    assert IsDescriptor(Tail(m), InfoOf(m, offset), m.layout);
  }

  // ----- The directory and the end record

  function CentralFields(m: Member, offset: nat): seq<Field> {
    [Field(m.version, 2), Field(m.version, 2), Field(m.flags, 2), Field(m.compression, 2),
     Field(m.time, 2), Field(m.date, 2), Field(m.crc, 4), Field(|m.data|, 4), Field(m.uncompressed, 4),
     Field(|m.name|, 2), Field(|m.extra|, 2), Field(0, 2),
     Field(0, 2), Field(0, 2), Field(0, 4), Field(offset, 4)]
  }

  function CentralRecord(m: Member, offset: nat): Bytes {
    CENTRAL_HEADER + Pack(CentralFields(m, offset)) + (m.name + m.extra)
  }

  lemma CentralWidth(m: Member, offset: nat)
    ensures
      var f := CentralFields(m, offset);
      && Width(f[..2]) == 4 && Width(f[..3]) == 6 && Width(f[..6]) == 12 && Width(f[..7]) == 16 && Width(f[..8]) == 20
      && Width(f[..9]) == 24 && Width(f[..10]) == 26 && Width(f[..11]) == 28 && Width(f[..15]) == 38 && Width(f) == 42
  {
    var f := CentralFields(m, offset);
    WidthSteps(f);
    hide Width;
    assert Width(f[..0 + 1]) == 2 && Width(f[..1 + 1]) == 4 && Width(f[..2 + 1]) == 6 && Width(f[..3 + 1]) == 8;
    assert Width(f[..4 + 1]) == 10 && Width(f[..5 + 1]) == 12 && Width(f[..6 + 1]) == 16 && Width(f[..7 + 1]) == 20;
    assert Width(f[..8 + 1]) == 24 && Width(f[..9 + 1]) == 26 && Width(f[..10 + 1]) == 28 && Width(f[..11 + 1]) == 30;
    assert Width(f[..12 + 1]) == 32 && Width(f[..13 + 1]) == 34 && Width(f[..14 + 1]) == 38 && Width(f[..15 + 1]) == 42;
  }

  /** A written directory entry is one, and takes the room its sizes say. */
  lemma WrittenEntry(p: Bytes, cursor: nat, m: Member, offset: nat)
    requires FieldsFit(CentralFields(m, offset)) && LiesAt(p, cursor, CentralRecord(m, offset))
    ensures EntryAt(p, cursor) && EntrySize(p, cursor) == |CentralRecord(m, offset)|
  {
    hide Read, Pack;
    var f := CentralFields(m, offset);
    CentralWidth(m, offset);
    LiesInside(p, cursor, CENTRAL_HEADER + Pack(f), m.name + m.extra);
    LiesInside(p, cursor, CENTRAL_HEADER, Pack(f));
    assert HasAt(p, cursor, CENTRAL_HEADER);
    hide Width, FieldsFit;
    ReadPacked(p, cursor + 4, f, 9);
    ReadPacked(p, cursor + 4, f, 10);
    ReadPacked(p, cursor + 4, f, 11);
  }

  /** A member as its directory entry tells it: flags, method, checksum, sizes, record offset and name. */
  function InfoAt(p: Bytes, cursor: nat): Info {
    var name := Slice(p, cursor + CENTRAL_FIXED_SIZE, cursor + CENTRAL_FIXED_SIZE + Read(p, cursor + 28, 2));
    Info(Read(p, cursor + 42, 4), Read(p, cursor + 20, 4), Read(p, cursor + 24, 4), Read(p, cursor + 16, 4),
         Read(p, cursor + 8, 2), Read(p, cursor + 10, 2), Some(name), Some(name))
  }

  /** A written directory entry, read back, is the member it was written for. */
  lemma WrittenEntryReads(p: Bytes, cursor: nat, m: Member, offset: nat)
    requires FieldsFit(CentralFields(m, offset)) && LiesAt(p, cursor, CentralRecord(m, offset))
    ensures InfoAt(p, cursor) == InfoOf(m, offset)
  {
    hide Read, Pack;
    var f := CentralFields(m, offset);
    CentralWidth(m, offset);
    LiesInside(p, cursor, CENTRAL_HEADER + Pack(f), m.name + m.extra);
    LiesInside(p, cursor, CENTRAL_HEADER, Pack(f));
    LiesInside(p, cursor + 46, m.name, m.extra);
    hide Width, FieldsFit;
    ReadPacked(p, cursor + 4, f, 2);
    ReadPacked(p, cursor + 4, f, 3);
    ReadPacked(p, cursor + 4, f, 6);
    ReadPacked(p, cursor + 4, f, 7);
    ReadPacked(p, cursor + 4, f, 8);
    ReadPacked(p, cursor + 4, f, 9);
    ReadPacked(p, cursor + 4, f, 15);
    SliceLies(p, cursor + 46, m.name);
  }

  function EndFields(count: nat, size: nat, offset: nat): seq<Field> {
    [Field(0, 2), Field(0, 2), Field(count, 2), Field(count, 2), Field(size, 4), Field(offset, 4), Field(0, 2)]
  }

  function EndRecord(count: nat, size: nat, offset: nat): Bytes {
    END_RECORD + Pack(EndFields(count, size, offset))
  }

  lemma EndWidth(count: nat, size: nat, offset: nat)
    ensures
      var f := EndFields(count, size, offset);
      && Width(f) == 18 && Width(f[..0]) == 0 && Width(f[..1]) == 2 && Width(f[..2]) == 4 && Width(f[..3]) == 6
      && Width(f[..4]) == 8 && Width(f[..5]) == 12 && Width(f[..6]) == 16
  {
    var f := EndFields(count, size, offset);
    WidthSteps(f);
    hide Width;
    assert Width(f[..0 + 1]) == 2 && Width(f[..1 + 1]) == 4 && Width(f[..2 + 1]) == 6 && Width(f[..3 + 1]) == 8;
    assert Width(f[..4 + 1]) == 12 && Width(f[..5 + 1]) == 16 && Width(f[..6 + 1]) == 18;
  }

  lemma WrittenEnd(p: Bytes, end: nat, infos: seq<Info>, size: nat, offset: nat)
    requires FieldsFit(EndFields(|infos|, size, offset)) && LiesAt(p, end, EndRecord(|infos|, size, offset)) &&
      end + 22 == |p|
    requires |infos| != 0xFFFF && size != 0xFFFFFFFF && offset != 0xFFFFFFFF && offset + size == end
    ensures EndsProperly(p) && EndRecordFits(p, end, infos, offset)
  {
    hide Read, Pack;
    var f := EndFields(|infos|, size, offset);
    EndWidth(|infos|, size, offset);
    LiesInside(p, end, END_RECORD, Pack(f));
    assert HasAt(p, end, END_RECORD);
    hide Width, FieldsFit;
    ReadPacked(p, end + 4, f, 0);
    ReadPacked(p, end + 4, f, 1);
    ReadPacked(p, end + 4, f, 2);
    ReadPacked(p, end + 4, f, 3);
    ReadPacked(p, end + 4, f, 4);
    ReadPacked(p, end + 4, f, 5);
    ReadPacked(p, end + 4, f, 6);
  }

  // ----- Archives

  /** The local records of the first `n` members. */
  function Locals(ms: seq<Member>, n: nat): Bytes
    requires n <= |ms|
  {
    if n == 0 then [] else Locals(ms, n - 1) + LocalRecord(ms[n - 1])
  }

  /** Where the record of member `n` starts, and where the directory does when all are written. */
  function OffsetAt(ms: seq<Member>, n: nat): nat
    requires n <= |ms|
  {
    |Locals(ms, n)|
  }

  function Centrals(ms: seq<Member>, n: nat): Bytes
    requires n <= |ms|
  {
    if n == 0 then [] else Centrals(ms, n - 1) + CentralRecord(ms[n - 1], OffsetAt(ms, n - 1))
  }

  function Archive(ms: seq<Member>): Bytes {
    Locals(ms, |ms|) + Centrals(ms, |ms|) + EndRecord(|ms|, |Centrals(ms, |ms|)|, OffsetAt(ms, |ms|))
  }

  /** What `zipfile` reads from the archive. */
  function Listing(ms: seq<Member>): Directory {
    Directory(seq(|ms|, i requires 0 <= i < |ms| => InfoOf(ms[i], OffsetAt(ms, i))), OffsetAt(ms, |ms|))
  }

  /** At least one member, and every number within its field, below the values reserved for larger archives. */
  predicate ArchiveFits(ms: seq<Member>) {
    && 0 < |ms| < 0xFFFF
    && |Centrals(ms, |ms|)| < 0xFFFFFFFF && OffsetAt(ms, |ms|) < 0xFFFFFFFF
    && forall i | 0 <= i < |ms| :: MemberFits(ms[i]) && FieldsFit(CentralFields(ms[i], OffsetAt(ms, i)))
  }

  lemma {:induction false} LocalLies(p: Bytes, ms: seq<Member>, n: nat, i: nat)
    requires i < n <= |ms| && LiesAt(p, 0, Locals(ms, n))
    ensures LiesAt(p, OffsetAt(ms, i), LocalRecord(ms[i]))
  {
    hide LocalRecord;
    LiesInside(p, 0, Locals(ms, n - 1), LocalRecord(ms[n - 1]));
    if i < n - 1 {
      LocalLies(p, ms, n - 1, i);
    }
  }

  lemma {:induction false} CentralLies(p: Bytes, from: nat, ms: seq<Member>, n: nat, i: nat)
    requires i < n <= |ms| && LiesAt(p, from, Centrals(ms, n))
    ensures LiesAt(p, from + |Centrals(ms, i)|, CentralRecord(ms[i], OffsetAt(ms, i)))
  {
    hide CentralRecord, OffsetAt;
    LiesInside(p, from, Centrals(ms, n - 1), CentralRecord(ms[n - 1], OffsetAt(ms, n - 1)));
    if i < n - 1 {
      CentralLies(p, from, ms, n - 1, i);
    }
  }

  lemma ListingAt(ms: seq<Member>, i: nat)
    requires i < |ms|
    ensures Listing(ms).infos[i] == InfoOf(ms[i], OffsetAt(ms, i))
    ensures NextOffset(Listing(ms).infos, i, OffsetAt(ms, |ms|)) == OffsetAt(ms, i + 1) ==
      OffsetAt(ms, i) + |LocalRecord(ms[i])|
  {
    hide LocalRecord, InfoOf;
    assert OffsetAt(ms, i + 1) == OffsetAt(ms, i) + |LocalRecord(ms[i])|;
    hide OffsetAt;
    if i + 1 < |ms| {
      InfoOffset(ms[i + 1], OffsetAt(ms, i + 1));
    }
  }

  lemma InfoOffset(m: Member, offset: nat)
    ensures InfoOf(m, offset).offset == offset
  {
  }

  lemma {:induction false} WrittenLocalsTile(p: Bytes, ms: seq<Member>, i: nat)
    requires ArchiveFits(ms) && i <= |ms| && LiesAt(p, 0, Locals(ms, |ms|))
    ensures LocalsTile(p, Listing(ms).infos, i, OffsetAt(ms, i), OffsetAt(ms, |ms|))
    decreases |ms| - i
  {
    hide LocalRecord, LocalFills, FieldsFit, Centrals, LiesAt, Locals, OffsetAt, NextOffset, MemberFits, InfoOf;
    if i < |ms| {
      WrittenLocalsTile(p, ms, i + 1);
      LocalLies(p, ms, |ms|, i);
      WrittenLocalFills(p, OffsetAt(ms, i), ms[i]);
      ListingAt(ms, i);
      InfoOffset(ms[i], OffsetAt(ms, i));
    }
  }

  lemma {:induction false} WrittenDirectoryTiles(p: Bytes, ms: seq<Member>, i: nat)
    requires ArchiveFits(ms) && i <= |ms| && LiesAt(p, OffsetAt(ms, |ms|), Centrals(ms, |ms|))
    ensures DirectoryTiles(p, OffsetAt(ms, |ms|) + |Centrals(ms, i)|, |ms| - i,
                           OffsetAt(ms, |ms|) + |Centrals(ms, |ms|)|)
    decreases |ms| - i
  {
    hide CentralRecord, EntryAt, FieldsFit, OffsetAt, LiesAt, EntrySize;
    if i < |ms| {
      var cursor := OffsetAt(ms, |ms|) + |Centrals(ms, i)|;
      WrittenDirectoryTiles(p, ms, i + 1);
      CentralLies(p, OffsetAt(ms, |ms|), ms, |ms|, i);
      WrittenEntry(p, cursor, ms[i], OffsetAt(ms, i));
      CentralsGrow(ms, i + 1, |ms|);
      EntryIsLong(ms[i], OffsetAt(ms, i));
    }
  }

  /** The members that `n` directory entries from `cursor` on tell of. */
  function Listed(p: Bytes, cursor: nat, n: nat): seq<Info>
    decreases n
  {
    if n == 0 then [] else [InfoAt(p, cursor)] + Listed(p, cursor + EntrySize(p, cursor), n - 1)
  }

  lemma {:induction false} WrittenListing(p: Bytes, ms: seq<Member>, i: nat)
    requires ArchiveFits(ms) && i <= |ms| && LiesAt(p, OffsetAt(ms, |ms|), Centrals(ms, |ms|))
    ensures Listed(p, OffsetAt(ms, |ms|) + |Centrals(ms, i)|, |ms| - i) == Listing(ms).infos[i..]
    decreases |ms| - i
  {
    hide CentralRecord, EntryAt, FieldsFit, OffsetAt, LiesAt, EntrySize, InfoAt, InfoOf, MemberFits;
    if i < |ms| {
      var cursor := OffsetAt(ms, |ms|) + |Centrals(ms, i)|;
      WrittenListing(p, ms, i + 1);
      CentralLies(p, OffsetAt(ms, |ms|), ms, |ms|, i);
      WrittenEntry(p, cursor, ms[i], OffsetAt(ms, i));
      WrittenEntryReads(p, cursor, ms[i], OffsetAt(ms, i));
      assert Listing(ms).infos[i..] == [Listing(ms).infos[i]] + Listing(ms).infos[i + 1..];
    }
  }

  /** The directory as the bytes of the payload tell it: where the end record says, as many entries as it says. */
  function DirectoryOf(p: Bytes): Directory
    requires |p| >= END_RECORD_SIZE
  {
    var end := |p| - END_RECORD_SIZE;
    Directory(Listed(p, Read(p, end + 16, 4), Read(p, end + 10, 2)), Read(p, end + 16, 4))
  }

  lemma {:induction false} CentralsGrow(ms: seq<Member>, i: nat, n: nat)
    requires i <= n <= |ms|
    ensures |Centrals(ms, i)| <= |Centrals(ms, n)|
  {
    hide CentralRecord, OffsetAt;
    if i < n {
      CentralsGrow(ms, i, n - 1);
    }
  }

  lemma EntryIsLong(m: Member, offset: nat)
    ensures |CentralRecord(m, offset)| >= CENTRAL_FIXED_SIZE
  {
    CentralWidth(m, offset);
  }

  lemma {:induction false} SortOfSorted(s: seq<Info>)
    requires forall i, j | 0 <= i < j < |s| :: s[i].offset <= s[j].offset
    ensures Sort(s, OffsetLe) == s
  {
    if s != [] {
      SortOfSorted(s[1..]);
      assert s == [s[0]] + s[1..];
    }
  }

  lemma {:induction false} OffsetsGrow(ms: seq<Member>, i: nat, j: nat)
    requires i <= j <= |ms|
    ensures OffsetAt(ms, i) <= OffsetAt(ms, j)
  {
    if i < j {
      OffsetsGrow(ms, i, j - 1);
    }
  }

  lemma LimitsOfFields()
    ensures Limit(2) == 0x1_0000 && Limit(4) == 0x1_0000_0000
  {
    assert Limit(1) == 256 && Limit(3) == 256 * Limit(2);
  }

  lemma EndFits(ms: seq<Member>)
    requires ArchiveFits(ms)
    ensures FieldsFit(EndFields(|ms|, |Centrals(ms, |ms|)|, OffsetAt(ms, |ms|)))
  {
    hide Centrals, OffsetAt;
    LimitsOfFields();
    hide Limit;
  }

  /** Where the three parts of an archive lie. */
  lemma ArchiveParts(ms: seq<Member>)
    ensures
      var p, locals, centrals := Archive(ms), Locals(ms, |ms|), Centrals(ms, |ms|);
      && LiesAt(p, 0, locals) && LiesAt(p, |locals|, centrals)
      && LiesAt(p, |locals| + |centrals|, EndRecord(|ms|, |centrals|, |locals|))
      && |p| == |locals| + |centrals| + 22
  {
    hide Locals, Centrals, EndRecord;
    var p, locals, centrals := Archive(ms), Locals(ms, |ms|), Centrals(ms, |ms|);
    var endRecord := EndRecord(|ms|, |centrals|, |locals|);
    assert LiesAt(p, 0, (locals + centrals) + endRecord);
    LiesInside(p, 0, locals + centrals, endRecord);
    LiesInside(p, 0, locals, centrals);
    EndIs22(|ms|, |centrals|, |locals|);
  }

  /** Every archive a plain writer produces is a tiling, and so is accepted. */
  lemma WrittenArchiveIsTiled(ms: seq<Member>)
    requires ArchiveFits(ms)
    ensures Tiled(Archive(ms), Listing(ms))
  {
    hide Archive, Locals, Centrals, EndRecord, Sort, LocalsTile, DirectoryTiles, EndRecordFits, EndsProperly,
      MemberFits, FieldsFit;
    var p, d := Archive(ms), Listing(ms);
    var locals, centrals := Locals(ms, |ms|), Centrals(ms, |ms|);
    ArchiveParts(ms);
    EndFits(ms);
    WrittenEnd(p, |locals| + |centrals|, d.infos, |centrals|, |locals|);
    WrittenLocalsTile(p, ms, 0);
    WrittenDirectoryTiles(p, ms, 0);
    NothingWritten(ms);
    forall i, j | 0 <= i < j < |ms|
      ensures d.infos[i].offset <= d.infos[j].offset
    {
      OffsetsGrow(ms, i, j);
    }
    SortOfSorted(d.infos);
  }

  lemma ListingShape(ms: seq<Member>)
    ensures Listing(ms).start == OffsetAt(ms, |ms|) == |Locals(ms, |ms|)|
    ensures |Listing(ms).infos| == |ms| && Listing(ms).infos[0..] == Listing(ms).infos
  {
    hide Locals, InfoOf;
  }

  lemma ReadsBack(p: Bytes, d: Directory)
    requires Tiled(p, d) && Listed(p, d.start, |d.infos|) == d.infos
    ensures |p| >= END_RECORD_SIZE && DirectoryOf(p) == d
  {
    hide Read, Listed, Sort, LocalsTile, DirectoryTiles, HasAt;
  }

  /** What the bytes of a written archive tell is what was written, and with it the archive is accepted. */
  lemma WrittenArchiveReadsBack(ms: seq<Member>)
    requires ArchiveFits(ms)
    ensures |Archive(ms)| >= END_RECORD_SIZE
    ensures DirectoryOf(Archive(ms)) == Listing(ms) && Tiled(Archive(ms), DirectoryOf(Archive(ms)))
  {
    hide *;
    WrittenArchiveIsTiled(ms);
    ArchiveParts(ms);
    ListingShape(ms);
    NothingWritten(ms);
    WrittenListing(Archive(ms), ms, 0);
    ReadsBack(Archive(ms), Listing(ms));
  }

  lemma EndIs22(count: nat, size: nat, offset: nat)
    ensures |EndRecord(count, size, offset)| == 22
  {
    EndWidth(count, size, offset);
  }

  lemma NothingWritten(ms: seq<Member>)
    ensures OffsetAt(ms, 0) == 0 && |Centrals(ms, 0)| == 0
  {
  }
}
