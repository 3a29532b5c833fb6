/**
 The accepted archives as a grammar: local records, directory entries and one end record, each written out
 field by field as in sections 4.3.7, 4.3.12 and 4.3.16 of PKWARE APPNOTE.TXT, and nothing between them.
 */
module ZipGrammar {
  import opened Base
  import opened Sorting
  import opened ZipCoverage
  import opened ZipWriter

  // ----- Fields

  predicate Shaped(f: seq<Field>, widths: seq<nat>) {
    |f| == |widths| && FieldsFit(f) && forall i :: 0 <= i < |f| ==> f[i].width == widths[i]
  }

  function Sum(widths: seq<nat>): nat {
    if widths == [] then 0 else widths[0] + Sum(widths[1..])
  }

  /** The numbers that lie in the bytes from `offset` on. */
  function Unpack(p: Bytes, offset: nat, widths: seq<nat>): (f: seq<Field>)
    ensures |f| == |widths|
    decreases widths
  {
    if widths == [] then []
    else [Field(Read(p, offset, widths[0]), widths[0])] + Unpack(p, offset + widths[0], widths[1..])
  }

  lemma ReadSpells(p: Bytes, offset: nat, width: nat)
    requires offset + width <= |p|
    ensures Read(p, offset, width) < Limit(width) && Encode(Read(p, offset, width), width) == p[offset..offset + width]
  {
    hide Encode, Limit, LittleEndian;
    LittleEndianExact(p[offset..offset + width], Read(p, offset, width));
  }

  /** Any bytes are what packing the numbers read from them gives. */
  lemma {:induction false} PackUnpack(p: Bytes, offset: nat, widths: seq<nat>)
    requires offset + Sum(widths) <= |p|
    ensures Shaped(Unpack(p, offset, widths), widths)
    ensures Pack(Unpack(p, offset, widths)) == p[offset..offset + Sum(widths)]
    decreases widths
  {
    hide Encode, Limit, Read;
    if widths == [] {
    } else {
      var w, rest, f := widths[0], widths[1..], Unpack(p, offset, widths);
      PackUnpack(p, offset + w, rest);
      ReadSpells(p, offset, w);
      assert p[offset..offset + w] + p[offset + w..offset + w + Sum(rest)] == p[offset..offset + Sum(widths)];
      assert f[1..] == Unpack(p, offset + w, rest);
    }
  }

  lemma {:induction false} UnpackAt(p: Bytes, offset: nat, widths: seq<nat>, i: nat)
    requires i < |widths|
    ensures Unpack(p, offset, widths)[i].n == Read(p, offset + Sum(widths[..i]), widths[i])
    decreases widths
  {
    hide Read;
    if i == 0 {
      assert widths[..0] == [];
    } else {
      UnpackAt(p, offset + widths[0], widths[1..], i - 1);
      assert widths[..i][0] == widths[0] && widths[..i][1..] == widths[1..][..i - 1];
    }
  }

  lemma {:induction false} ShapedWidth(f: seq<Field>, widths: seq<nat>)
    requires Shaped(f, widths)
    ensures Width(f) == Sum(widths)
  {
    if f != [] {
      ShapedWidth(f[1..], widths[1..]);
    }
  }

  /** The numbers read back from packed bytes are those that were packed. */
  lemma FieldRead(p: Bytes, offset: nat, f: seq<Field>, widths: seq<nat>, i: nat)
    requires Shaped(f, widths) && i < |f| && LiesAt(p, offset, Pack(f))
    ensures Read(p, offset + Sum(widths[..i]), widths[i]) == f[i].n
  {
    hide Read, Pack, Limit;
    ReadPacked(p, offset, f, i);
    ShapedWidth(f[..i], widths[..i]);
  }

  /** Bytes are read least significant first. */
  lemma BytesRead(p: Bytes, offset: nat, a: int, b: int, c: int, d: int)
    requires 0 <= a < 256 && 0 <= b < 256 && 0 <= c < 256 && 0 <= d < 256
    requires offset + 4 <= |p| && p[offset..offset + 4] == [a, b, c, d]
    ensures Read(p, offset, 2) == a + 256 * b
    ensures Read(p, offset, 4) == a + 256 * b + 65536 * c + 16777216 * d
  {
    var x: Bytes, y: Bytes := [a, b, c, d], [a, b];
    assert p[offset..offset + 2] == p[offset..offset + 4][..2] == y;
    assert x[1..] == [b, c, d] && [b, c, d][1..] == [c, d] && [c, d][1..] == [d] && y[1..] == [b] && [d][1..] == [];
    assert [b][1..] == [] && LittleEndian([b]) == b && LittleEndian([d]) == d;
    assert LittleEndian([c, d]) == c + 256 * d && LittleEndian([b, c, d]) == b + 256 * LittleEndian([c, d]);
  }

  // ----- The end record

  const END_WIDTHS: seq<nat> := [2, 2, 2, 2, 4, 4, 2]
  const LOCAL_WIDTHS: seq<nat> := [2, 2, 2, 2, 2, 4, 4, 4, 2, 2]
  const ENTRY_WIDTHS: seq<nat> := [2, 2, 2, 2, 2, 2, 4, 4, 4, 2, 2, 2, 2, 2, 4, 4]

  lemma EndOffsets()
    ensures Sum(END_WIDTHS) == 18
    ensures Sum(END_WIDTHS[..0]) == 0 && Sum(END_WIDTHS[..1]) == 2 && Sum(END_WIDTHS[..2]) == 4
    ensures Sum(END_WIDTHS[..3]) == 6 && Sum(END_WIDTHS[..4]) == 8 && Sum(END_WIDTHS[..5]) == 12
    ensures Sum(END_WIDTHS[..6]) == 16
  {
    SumSteps(END_WIDTHS);
    hide Sum;
    var w := END_WIDTHS;
    assert Sum(w[..0 + 1]) == 2 && Sum(w[..1 + 1]) == 4 && Sum(w[..2 + 1]) == 6 && Sum(w[..3 + 1]) == 8;
    assert Sum(w[..4 + 1]) == 12 && Sum(w[..5 + 1]) == 16 && Sum(w[..6 + 1]) == 18;
  }

  lemma {:induction false} SumStep(w: seq<nat>, i: nat)
    requires i < |w|
    ensures Sum(w[..i + 1]) == Sum(w[..i]) + w[i]
  {
    if i == 0 {
      assert w[..0] == [] && w[..1] == [w[0]] && w[..1][1..] == [];
    } else {
      SumStep(w[1..], i - 1);
      assert w[..i + 1][1..] == w[1..][..i] && w[..i][1..] == w[1..][..i - 1];
    }
  }

  lemma SumSteps(w: seq<nat>)
    ensures Sum(w[..0]) == 0 && w[..|w|] == w
    ensures forall i | 0 <= i < |w| :: Sum(w[..i + 1]) == Sum(w[..i]) + w[i]
  {
    forall i | 0 <= i < |w|
      ensures Sum(w[..i + 1]) == Sum(w[..i]) + w[i]
    {
      SumStep(w, i);
    }
  }

  /** An end record without comment, of a single-disk archive without reserved values. */
  predicate IsEnd(b: Bytes, count: nat, size: nat, start: nat) {
    && count < 0xFFFF && size < 0xFFFFFFFF && start < 0xFFFFFFFF
    && b == END_RECORD + Pack([Field(0, 2), Field(0, 2), Field(count, 2), Field(count, 2), Field(size, 4),
                               Field(start, 4), Field(0, 2)])
  }

  /** The seven numbers of an end record. */
  predicate EndReads(p: Bytes, end: nat, count: nat, size: nat, start: nat) {
    && Read(p, end + 4, 2) == 0 && Read(p, end + 6, 2) == 0 && Read(p, end + 8, 2) == count
    && Read(p, end + 10, 2) == count && Read(p, end + 12, 4) == size && Read(p, end + 16, 4) == start
    && Read(p, end + 20, 2) == 0
  }

  lemma EndFieldsFit(count: nat, size: nat, start: nat)
    requires count < 0xFFFF && size < 0xFFFFFFFF && start < 0xFFFFFFFF
    ensures Shaped(EndFields(count, size, start), END_WIDTHS)
  {
    LimitsOfFields();
    hide Limit;
  }

  lemma SameFields(a: seq<Field>, b: seq<Field>, widths: seq<nat>)
    requires Shaped(a, widths) && Shaped(b, widths) && forall i :: 0 <= i < |a| ==> a[i].n == b[i].n
    ensures a == b
  {
  }

  lemma SamePacked(p: Bytes, offset: nat, f: seq<Field>, widths: seq<nat>)
    requires Shaped(f, widths) && LiesAt(p, offset, Pack(f))
    ensures Unpack(p, offset, widths) == f
  {
    hide Read;
    forall i: nat | i < |f|
      ensures Unpack(p, offset, widths)[i].n == f[i].n
    {
      FieldRead(p, offset, f, widths, i);
      UnpackAt(p, offset, widths, i);
    }
    ShapedWidth(f, widths);
    PackUnpack(p, offset, widths);
    SameFields(Unpack(p, offset, widths), f, widths);
  }

  /** Reading finds the number of each field, one after the other. */
  ghost predicate ReadsInTurn(p: Bytes, offset: nat, f: seq<Field>, widths: seq<nat>)
    requires |f| == |widths|
  {
    forall i: nat :: i < |f| ==> Read(p, offset + Sum(widths[..i]), widths[i]) == f[i].n
  }

  /** Packed fields lie in a payload exactly when reading finds their numbers, one after the other. */
  lemma PackExact(p: Bytes, offset: nat, f: seq<Field>, widths: seq<nat>)
    requires Shaped(f, widths) && offset + Sum(widths) <= |p|
    ensures LiesAt(p, offset, Pack(f)) <==> ReadsInTurn(p, offset, f, widths)
  {
    hide Read, Pack;
    var found := Unpack(p, offset, widths);
    forall i: nat | i < |f| {
      UnpackAt(p, offset, widths, i);
    }
    ShapedWidth(f, widths);
    PackUnpack(p, offset, widths);
    if LiesAt(p, offset, Pack(f)) {
      SamePacked(p, offset, f, widths);
    }
    if ReadsInTurn(p, offset, f, widths) {
      SameFields(found, f, widths);
    }
  }

  lemma EndReadsInTurn(p: Bytes, end: nat, count: nat, size: nat, start: nat)
    ensures EndReads(p, end, count, size, start) <==>
      ReadsInTurn(p, end + 4, EndFields(count, size, start), END_WIDTHS)
  {
    hide Read, Sum;
    EndOffsets();
    var w, f := END_WIDTHS, EndFields(count, size, start);
    if ReadsInTurn(p, end + 4, f, w) {
      assert Read(p, end + 4 + Sum(w[..0]), w[0]) == f[0].n && Read(p, end + 4 + Sum(w[..1]), w[1]) == f[1].n;
      assert Read(p, end + 4 + Sum(w[..2]), w[2]) == f[2].n && Read(p, end + 4 + Sum(w[..3]), w[3]) == f[3].n;
      assert Read(p, end + 4 + Sum(w[..4]), w[4]) == f[4].n && Read(p, end + 4 + Sum(w[..5]), w[5]) == f[5].n;
      assert Read(p, end + 4 + Sum(w[..6]), w[6]) == f[6].n;
    }
  }

  lemma EndReadsExact(p: Bytes, end: nat, count: nat, size: nat, start: nat)
    requires end + 22 == |p| && count < 0xFFFF && size < 0xFFFFFFFF && start < 0xFFFFFFFF
    ensures EndReads(p, end, count, size, start) <==> LiesAt(p, end + 4, Pack(EndFields(count, size, start)))
  {
    hide Read, Pack, Sum, Shaped, LiesAt, EndReads, EndFields, ReadsInTurn;
    EndOffsets();
    EndFieldsFit(count, size, start);
    EndReadsInTurn(p, end, count, size, start);
    PackExact(p, end + 4, EndFields(count, size, start), END_WIDTHS);
  }

  lemma LieTogether(p: Bytes, offset: nat, a: Bytes, b: Bytes)
    ensures LiesAt(p, offset, a + b) <==> LiesAt(p, offset, a) && LiesAt(p, offset + |a|, b)
  {
    if LiesAt(p, offset, a + b) {
      Inside(p, offset, a, b);
    }
    if LiesAt(p, offset, a) && LiesAt(p, offset + |a|, b) {
      assert p[offset..offset + |a + b|] == p[offset..offset + |a|] + p[offset + |a|..offset + |a| + |b|];
    }
  }

  lemma SignedAt(p: Bytes, offset: nat, signature: Bytes)
    requires offset + 4 <= |p| && |signature| == 4
    ensures HasAt(p, offset, signature) <==> LiesAt(p, offset, signature)
  {
  }

  /** The payload ends properly exactly when its last 22 bytes are an end record that places the directory there. */
  lemma EndExact(p: Bytes, infos: seq<Info>, start: nat)
    requires |p| >= 22
    ensures EndsProperly(p) && EndRecordFits(p, |p| - 22, infos, start) <==>
      start <= |p| - 22 && IsEnd(p[|p| - 22..], |infos|, |p| - 22 - start, start)
  {
    hide Read, Pack, HasAt, LiesAt;
    var end := |p| - 22;
    SignedAt(p, end, END_RECORD);
    if start <= end && |infos| < 0xFFFF && end - start < 0xFFFFFFFF && start < 0xFFFFFFFF {
      EndReadsExact(p, end, |infos|, end - start, start);
      var fields := Pack(EndFields(|infos|, end - start, start));
      LieTogether(p, end, END_RECORD, fields);
      EndWidth(|infos|, end - start, start);
      LiesLast(p, end, END_RECORD + fields);
    }
    ReadsBelow(p, end);
  }

  lemma LiesLast(p: Bytes, offset: nat, b: Bytes)
    requires offset + |b| == |p|
    ensures LiesAt(p, offset, b) <==> p[offset..] == b
  {
    assert p[offset..offset + |b|] == p[offset..];
  }

  lemma ReadsBelow(p: Bytes, end: nat)
    requires end + 22 == |p|
    ensures Read(p, end + 8, 2) <= 0xFFFF && Read(p, end + 12, 4) <= 0xFFFFFFFF && Read(p, end + 16, 4) <= 0xFFFFFFFF
  {
    ReadSpells(p, end + 8, 2);
    ReadSpells(p, end + 12, 4);
    ReadSpells(p, end + 16, 4);
    LimitsOfFields();
    hide Limit, Read, Encode;
  }

  // ----- Records with a signature and fields in front

  /** Bytes that start with a signature are that, the fields read from them, and the rest. */
  lemma HeadParsed(p: Bytes, offset: nat, signature: Bytes, widths: seq<nat>, end: nat)
    requires |signature| == 4 && offset + 4 + Sum(widths) <= end <= |p| && HasAt(p, offset, signature)
    ensures
      p[offset..end] ==
      signature + Pack(Unpack(p, offset + 4, widths)) + p[offset + 4 + Sum(widths)..end]
  {
    hide Read, Pack, Unpack, Shaped;
    PackUnpack(p, offset + 4, widths);
    var body := offset + 4 + Sum(widths);
    assert p[offset..end] == p[offset..offset + 4] + p[offset + 4..body] + p[body..end];
  }

  /** And the other way round: the signature is there, and the fields can be read. */
  lemma HeadWritten(p: Bytes, offset: nat, signature: Bytes, f: seq<Field>, widths: seq<nat>, rest: Bytes)
    requires |signature| == 4 && Shaped(f, widths) && LiesAt(p, offset, signature + Pack(f) + rest)
    ensures HasAt(p, offset, signature) && LiesAt(p, offset + 4 + Sum(widths), rest)
    ensures |f| == |widths| && ReadsInTurn(p, offset + 4, f, widths)
  {
    assert |f| == |widths|;
    hide Read, Pack, Shaped, ReadsInTurn;
    ShapedWidth(f, widths);
    LieTogether(p, offset, signature + Pack(f), rest);
    LieTogether(p, offset, signature, Pack(f));
    PackExact(p, offset + 4, f, widths);
  }

  // ----- Directory entries

  lemma EntryOffsets()
    ensures Sum(ENTRY_WIDTHS) == 42
    ensures Sum(ENTRY_WIDTHS[..9]) == 24 && Sum(ENTRY_WIDTHS[..10]) == 26 && Sum(ENTRY_WIDTHS[..11]) == 28
  {
    SumSteps(ENTRY_WIDTHS);
    hide Sum;
    var w := ENTRY_WIDTHS;
    assert Sum(w[..0 + 1]) == 2 && Sum(w[..1 + 1]) == 4 && Sum(w[..2 + 1]) == 6 && Sum(w[..3 + 1]) == 8;
    assert Sum(w[..4 + 1]) == 10 && Sum(w[..5 + 1]) == 12 && Sum(w[..6 + 1]) == 16 && Sum(w[..7 + 1]) == 20;
    assert Sum(w[..8 + 1]) == 24 && Sum(w[..9 + 1]) == 26 && Sum(w[..10 + 1]) == 28 && Sum(w[..11 + 1]) == 30;
    assert Sum(w[..12 + 1]) == 32 && Sum(w[..13 + 1]) == 34 && Sum(w[..14 + 1]) == 38 && Sum(w[..15 + 1]) == 42;
  }

  /** Signature, sixteen fields, name and extra field; no comment. */
  predicate EntryParsed(b: Bytes, f: seq<Field>, name: Bytes, extra: Bytes) {
    && Shaped(f, ENTRY_WIDTHS) && b == [0x50, 0x4B, 1, 2] + Pack(f) + (name + extra)
    && f[9].n == |name| && f[10].n == |extra| && f[11].n == 0
  }

  ghost predicate IsEntry(b: Bytes) {
    exists f: seq<Field>, name: Bytes, extra: Bytes :: EntryParsed(b, f, name, extra)
  }

  lemma EntryFields(p: Bytes, cursor: nat)
    ensures
      var f := Unpack(p, cursor + 4, ENTRY_WIDTHS);
      f[9].n == Read(p, cursor + 28, 2) && f[10].n == Read(p, cursor + 30, 2) && f[11].n == Read(p, cursor + 32, 2)
  {
    hide Read, Unpack, Sum;
    EntryOffsets();
    UnpackAt(p, cursor + 4, ENTRY_WIDTHS, 9);
    UnpackAt(p, cursor + 4, ENTRY_WIDTHS, 10);
    UnpackAt(p, cursor + 4, ENTRY_WIDTHS, 11);
  }

  lemma EntryIsParsed(p: Bytes, cursor: nat, n: nat)
    requires cursor + n <= |p| && EntryAt(p, cursor) && EntrySize(p, cursor) == n
    ensures n >= 46 && IsEntry(p[cursor..cursor + n])
  {
    hide Read, Unpack, Sum, Pack, HasAt, Shaped;
    EntryOffsets();
    EntryFields(p, cursor);
    PackUnpack(p, cursor + 4, ENTRY_WIDTHS);
    HeadParsed(p, cursor, CENTRAL_HEADER, ENTRY_WIDTHS, cursor + n);
    var f, a := Unpack(p, cursor + 4, ENTRY_WIDTHS), cursor + 46;
    var name, extra := p[a..a + f[9].n], p[a + f[9].n..cursor + n];
    assert p[a..cursor + n] == name + extra;
    assert EntryParsed(p[cursor..cursor + n], f, name, extra);
  }

  lemma ParsedIsEntry(p: Bytes, cursor: nat, n: nat)
    requires cursor + n <= |p| && IsEntry(p[cursor..cursor + n])
    ensures n >= 46 && EntryAt(p, cursor) && EntrySize(p, cursor) == n
  {
    hide Read, Sum, Pack, HasAt, Shaped, ReadsInTurn;
    var f: seq<Field>, name: Bytes, extra: Bytes :| EntryParsed(p[cursor..cursor + n], f, name, extra);
    EntryOffsets();
    ShapedWidth(f, ENTRY_WIDTHS);
    HeadWritten(p, cursor, CENTRAL_HEADER, f, ENTRY_WIDTHS, name + extra);
    InTurn(p, cursor + 4, f, ENTRY_WIDTHS, 9);
    InTurn(p, cursor + 4, f, ENTRY_WIDTHS, 10);
    InTurn(p, cursor + 4, f, ENTRY_WIDTHS, 11);
  }

  lemma InTurn(p: Bytes, offset: nat, f: seq<Field>, widths: seq<nat>, i: nat)
    requires |f| == |widths| && i < |f| && ReadsInTurn(p, offset, f, widths)
    ensures Read(p, offset + Sum(widths[..i]), widths[i]) == f[i].n
  {
    hide Read;
  }

  /** An entry stands at a place, with this size, exactly when those bytes are one. */
  lemma EntryExact(p: Bytes, cursor: nat, n: nat)
    requires cursor + n <= |p|
    ensures EntryAt(p, cursor) && EntrySize(p, cursor) == n <==> IsEntry(p[cursor..cursor + n])
  {
    hide Read, EntryAt, EntrySize, IsEntry;
    if EntryAt(p, cursor) && EntrySize(p, cursor) == n {
      EntryIsParsed(p, cursor, n);
    }
    if IsEntry(p[cursor..cursor + n]) {
      ParsedIsEntry(p, cursor, n);
    }
  }

  // ----- Local records

  lemma LocalOffsets()
    ensures Sum(LOCAL_WIDTHS) == 26
    ensures Sum(LOCAL_WIDTHS[..1]) == 2 && Sum(LOCAL_WIDTHS[..2]) == 4 && Sum(LOCAL_WIDTHS[..5]) == 10
    ensures Sum(LOCAL_WIDTHS[..6]) == 14 && Sum(LOCAL_WIDTHS[..7]) == 18 && Sum(LOCAL_WIDTHS[..8]) == 22
    ensures Sum(LOCAL_WIDTHS[..9]) == 24
  {
    SumSteps(LOCAL_WIDTHS);
    hide Sum;
    var w := LOCAL_WIDTHS;
    assert Sum(w[..0 + 1]) == 2 && Sum(w[..1 + 1]) == 4 && Sum(w[..2 + 1]) == 6 && Sum(w[..3 + 1]) == 8;
    assert Sum(w[..4 + 1]) == 10 && Sum(w[..5 + 1]) == 14 && Sum(w[..6 + 1]) == 18 && Sum(w[..7 + 1]) == 22;
    assert Sum(w[..8 + 1]) == 24 && Sum(w[..9 + 1]) == 26;
  }

  /** A data descriptor: perhaps a signature, then the checksum and both sizes. */
  predicate TailIn(b: Bytes, info: Info, signature: Bytes, width: nat) {
    && info.crc < 0x1_0000_0000 && info.compressed < Limit(width) && info.uncompressed < Limit(width)
    && b == signature + Encode(info.crc, 4) + Encode(info.compressed, width) + Encode(info.uncompressed, width)
  }

  /** With or without signature, the sizes in four or in eight bytes. */
  predicate IsTail(b: Bytes, info: Info) {
    || TailIn(b, info, [], 4) || TailIn(b, info, [0x50, 0x4B, 7, 8], 4)
    || TailIn(b, info, [], 8) || TailIn(b, info, [0x50, 0x4B, 7, 8], 8)
  }

  lemma TailInExact(b: Bytes, info: Info, l: Layout)
    ensures IsDescriptor(b, info, l) <==> TailIn(b, info, if l.signed then [0x50, 0x4B, 7, 8] else [], l.width)
  {
    LimitsOfFields();
    hide Encode, Limit;
  }

  lemma TailExact(b: Bytes, info: Info)
    ensures SomeDescriptor(b, info) <==> IsTail(b, info)
  {
    hide IsDescriptor, TailIn;
    TailInExact(b, info, Layout(false, 4));
    TailInExact(b, info, Layout(true, 4));
    TailInExact(b, info, Layout(false, 8));
    TailInExact(b, info, Layout(true, 8));
    assert LAYOUTS[0] in LAYOUTS && LAYOUTS[1] in LAYOUTS && LAYOUTS[2] in LAYOUTS && LAYOUTS[3] in LAYOUTS;
  }

  /** What is behind the header of a local record. */
  datatype Body = Body(name: Bytes, extra: Bytes, data: Bytes, tail: Bytes)

  /** The name the directory gives, in the encoding that flag 11 asks for. */
  predicate NamedAs(info: Info, name: Bytes) {
    if info.flags / 2048 % 2 == 1 then info.utf8 == Some(name) else info.cp437 == Some(name)
  }

  /**
   Signature, ten fields, name, extra field, data, and a data descriptor if flag 3 asks for one; otherwise checksum
   and sizes stand in the header.
   */
  predicate LocalParsed(b: Bytes, info: Info, f: seq<Field>, body: Body) {
    && Shaped(f, LOCAL_WIDTHS)
    && b == [0x50, 0x4B, 3, 4] + Pack(f) + (body.name + body.extra + body.data + body.tail)
    && f[1].n == info.flags && f[2].n == info.compression && f[8].n == |body.name| && f[9].n == |body.extra|
    && NamedAs(info, body.name) && |body.data| == info.compressed
    && if info.flags / 8 % 2 == 1 then
         IsTail(body.tail, info)
       else
         body.tail == [] && f[5].n == info.crc && f[6].n == info.compressed && f[7].n == info.uncompressed
  }

  ghost predicate IsLocal(b: Bytes, info: Info) {
    exists f: seq<Field>, body: Body :: LocalParsed(b, info, f, body)
  }

  lemma LocalFieldsRead(p: Bytes, offset: nat)
    ensures
      var f := Unpack(p, offset + 4, LOCAL_WIDTHS);
      && f[1].n == Read(p, offset + 6, 2) && f[2].n == Read(p, offset + 8, 2)
      && f[5].n == Read(p, offset + 14, 4) && f[6].n == Read(p, offset + 18, 4) && f[7].n == Read(p, offset + 22, 4)
      && f[8].n == Read(p, offset + 26, 2) && f[9].n == Read(p, offset + 28, 2)
  {
    hide Read, Unpack, Sum;
    LocalOffsets();
    UnpackAt(p, offset + 4, LOCAL_WIDTHS, 1);
    UnpackAt(p, offset + 4, LOCAL_WIDTHS, 2);
    UnpackAt(p, offset + 4, LOCAL_WIDTHS, 5);
    UnpackAt(p, offset + 4, LOCAL_WIDTHS, 6);
    UnpackAt(p, offset + 4, LOCAL_WIDTHS, 7);
    UnpackAt(p, offset + 4, LOCAL_WIDTHS, 8);
    UnpackAt(p, offset + 4, LOCAL_WIDTHS, 9);
  }

  /** The body of the record between its header and the next record. */
  function BodyOf(p: Bytes, start: nat, nameSize: nat, extraSize: nat, dataSize: nat, next: nat): Body
    requires start + nameSize + extraSize + dataSize <= next <= |p|
  {
    Body(p[start..start + nameSize], p[start + nameSize..start + nameSize + extraSize],
         p[start + nameSize + extraSize..start + nameSize + extraSize + dataSize],
         p[start + nameSize + extraSize + dataSize..next])
  }

  lemma BodyJoined(p: Bytes, start: nat, nameSize: nat, extraSize: nat, dataSize: nat, next: nat)
    requires start + nameSize + extraSize + dataSize <= next <= |p|
    ensures
      var body := BodyOf(p, start, nameSize, extraSize, dataSize, next);
      p[start..next] == body.name + body.extra + body.data + body.tail
  {
  }

  lemma LocalIsParsed(p: Bytes, offset: nat, info: Info, next: nat)
    requires next <= |p| && LocalFills(p, offset, info, next)
    ensures IsLocal(p[offset..next], info)
  {
    hide Read, Unpack, Sum, Pack, HasAt, Shaped, IsTail, SomeDescriptor;
    LocalOffsets();
    LocalFieldsRead(p, offset);
    PackUnpack(p, offset + 4, LOCAL_WIDTHS);
    HeadParsed(p, offset, LOCAL_HEADER, LOCAL_WIDTHS, next);
    var f := Unpack(p, offset + 4, LOCAL_WIDTHS);
    var body := BodyOf(p, offset + 30, f[8].n, f[9].n, info.compressed, next);
    BodyJoined(p, offset + 30, f[8].n, f[9].n, info.compressed, next);
    TailExact(body.tail, info);
    assert LocalParsed(p[offset..next], info, f, body);
  }

  lemma LocalReadsBack(p: Bytes, offset: nat, f: seq<Field>)
    requires |f| == 10 && ReadsInTurn(p, offset + 4, f, LOCAL_WIDTHS)
    ensures Read(p, offset + 6, 2) == f[1].n && Read(p, offset + 8, 2) == f[2].n
    ensures Read(p, offset + 14, 4) == f[5].n && Read(p, offset + 18, 4) == f[6].n && Read(p, offset + 22, 4) == f[7].n
    ensures Read(p, offset + 26, 2) == f[8].n && Read(p, offset + 28, 2) == f[9].n
  {
    hide Read, Sum, ReadsInTurn;
    LocalOffsets();
    InTurn(p, offset + 4, f, LOCAL_WIDTHS, 1);
    InTurn(p, offset + 4, f, LOCAL_WIDTHS, 2);
    InTurn(p, offset + 4, f, LOCAL_WIDTHS, 5);
    InTurn(p, offset + 4, f, LOCAL_WIDTHS, 6);
    InTurn(p, offset + 4, f, LOCAL_WIDTHS, 7);
    InTurn(p, offset + 4, f, LOCAL_WIDTHS, 8);
    InTurn(p, offset + 4, f, LOCAL_WIDTHS, 9);
  }

  /** The length of a parsed record, and where its name and its tail lie. */
  lemma BodyLies(p: Bytes, offset: nat, info: Info, next: nat, f: seq<Field>, body: Body)
    requires offset <= next <= |p| && LocalParsed(p[offset..next], info, f, body)
    ensures |f| == 10 && HasAt(p, offset, LOCAL_HEADER) && ReadsInTurn(p, offset + 4, f, LOCAL_WIDTHS)
    ensures next == offset + 30 + |body.name| + |body.extra| + |body.data| + |body.tail|
    ensures Slice(p, offset + 30, offset + 30 + |body.name|) == body.name
    ensures Slice(p, next - |body.tail|, next) == body.tail
  {
    var rest := body.name + body.extra + body.data + body.tail;
    hide Read, Sum, Pack, HasAt, ReadsInTurn, IsTail, Slice, LiesAt;
    LocalOffsets();
    ShapedWidth(f, LOCAL_WIDTHS);
    assert LiesAt(p, offset, LOCAL_HEADER + Pack(f) + rest) by {
      WholeLies(p, offset, next);
    }
    hide Shaped;
    HeadWritten(p, offset, LOCAL_HEADER, f, LOCAL_WIDTHS, rest);
    FourLie(p, offset + 30, body.name, body.extra, body.data, body.tail);
  }

  lemma WholeLies(p: Bytes, offset: nat, next: nat)
    requires offset <= next <= |p|
    ensures LiesAt(p, offset, p[offset..next])
  {
  }

  lemma ParsedIsLocal(p: Bytes, offset: nat, info: Info, next: nat)
    requires offset <= next <= |p| && IsLocal(p[offset..next], info)
    ensures LocalFills(p, offset, info, next)
  {
    hide Read, Sum, Pack, HasAt, Shaped, ReadsInTurn, IsTail, SomeDescriptor, Slice;
    var f: seq<Field>, body: Body :| LocalParsed(p[offset..next], info, f, body);
    BodyLies(p, offset, info, next, f, body);
    LocalReadsBack(p, offset, f);
    TailExact(body.tail, info);
  }

  /** The bytes between two places are accepted as the record of a member exactly when they are one. */
  lemma LocalExact(p: Bytes, offset: nat, info: Info, next: nat)
    requires offset <= next <= |p|
    ensures LocalFills(p, offset, info, next) <==> IsLocal(p[offset..next], info)
  {
    hide LocalFills, IsLocal;
    if LocalFills(p, offset, info, next) {
      LocalIsParsed(p, offset, info, next);
    }
    if IsLocal(p[offset..next], info) {
      ParsedIsLocal(p, offset, info, next);
    }
  }

  // ----- Archives

  function Joined(parts: seq<Bytes>): Bytes {
    if parts == [] then [] else parts[0] + Joined(parts[1..])
  }

  /** Records of these members, one after the other from `start` on. */
  ghost predicate LocalsParsed(locals: seq<Bytes>, ordered: seq<Info>, start: nat) {
    && |locals| == |ordered|
    && forall i :: 0 <= i < |locals| ==>
         IsLocal(locals[i], ordered[i]) && ordered[i].offset == start + |Joined(locals[..i])|
  }

  ghost predicate EntriesParsed(entries: seq<Bytes>) {
    forall i :: 0 <= i < |entries| ==> IsEntry(entries[i])
  }

  lemma JoinedCons(first: Bytes, rest: seq<Bytes>, i: nat)
    requires i <= |rest|
    ensures Joined([first] + rest) == first + Joined(rest)
    ensures Joined(([first] + rest)[..i + 1]) == first + Joined(rest[..i])
  {
    assert ([first] + rest)[1..] == rest;
    assert ([first] + rest)[..i + 1] == [first] + rest[..i];
    assert ([first] + rest[..i])[1..] == rest[..i];
  }

  /** An accepted directory, cut into its entries. */
  lemma {:induction false} DirectoryIsParsed(p: Bytes, cursor: nat, n: nat, end: nat) returns (entries: seq<Bytes>)
    requires end <= |p| && DirectoryTiles(p, cursor, n, end)
    ensures cursor <= end && |entries| == n && EntriesParsed(entries) && Joined(entries) == p[cursor..end]
    decreases n
  {
    hide EntryAt, EntrySize, IsEntry;
    if n == 0 {
      entries := [];
    } else {
      var size := EntrySize(p, cursor);
      var rest := DirectoryIsParsed(p, cursor + size, n - 1, end);
      EntryExact(p, cursor, size);
      entries := [p[cursor..cursor + size]] + rest;
      JoinedCons(p[cursor..cursor + size], rest, 0);
      assert p[cursor..end] == p[cursor..cursor + size] + p[cursor + size..end];
    }
  }

  lemma {:induction false} ParsedIsDirectory(p: Bytes, cursor: nat, entries: seq<Bytes>, end: nat)
    requires cursor <= end <= |p| && EntriesParsed(entries) && Joined(entries) == p[cursor..end]
    ensures DirectoryTiles(p, cursor, |entries|, end)
    decreases |entries|
  {
    hide EntryAt, EntrySize, IsEntry;
    if entries == [] {
      assert |p[cursor..end]| == 0;
    } else {
      var first, rest := entries[0], entries[1..];
      var next := cursor + |first|;
      assert |p[cursor..end]| == |first| + |Joined(rest)|;
      assert p[cursor..next] == p[cursor..end][..|first|] == first;
      assert p[next..end] == p[cursor..end][|first|..] == Joined(rest);
      EntryExact(p, cursor, |first|);
      ParsedIsEntry(p, cursor, |first|);
      ParsedIsDirectory(p, next, rest, end);
    }
  }

  lemma LocalsCons(first: Bytes, rest: seq<Bytes>, ordered: seq<Info>, start: nat)
    requires ordered != []
    ensures LocalsParsed([first] + rest, ordered, start) <==>
      && IsLocal(first, ordered[0]) && ordered[0].offset == start
      && LocalsParsed(rest, ordered[1..], start + |first|)
  {
    hide IsLocal;
    var locals := [first] + rest;
    forall i | 0 <= i <= |rest| {
      JoinedCons(first, rest, i);
    }
    assert Joined(locals[..0]) == [];
    if LocalsParsed(locals, ordered, start) {
      assert locals[0] == first;
      forall i | 0 <= i < |rest|
        ensures IsLocal(rest[i], ordered[1..][i])
        ensures ordered[1..][i].offset == start + |first| + |Joined(rest[..i])|
      {
        assert locals[i + 1] == rest[i];
      }
    }
    if IsLocal(first, ordered[0]) && ordered[0].offset == start && LocalsParsed(rest, ordered[1..], start + |first|) {
      forall i | 0 <= i < |locals|
        ensures IsLocal(locals[i], ordered[i]) && ordered[i].offset == start + |Joined(locals[..i])|
      {
        if i > 0 {
          assert locals[i] == rest[i - 1] && ordered[i] == ordered[1..][i - 1];
        }
      }
    }
  }

  lemma NothingParsed(ordered: seq<Info>, start: nat)
    requires ordered == []
    ensures LocalsParsed([], ordered, start) && Joined([]) == []
  {
  }

  /** Accepted local records, cut apart. */
  lemma {:induction false} LocalsAreParsed(p: Bytes, ordered: seq<Info>, i: nat, cursor: nat, directory: nat)
    returns (locals: seq<Bytes>)
    requires directory <= |p| && i <= |ordered| && LocalsTile(p, ordered, i, cursor, directory)
    ensures cursor <= directory && LocalsParsed(locals, ordered[i..], cursor) && Joined(locals) == p[cursor..directory]
    decreases |ordered| - i
  {
    hide LocalFills, IsLocal, LocalsParsed, Joined;
    if i == |ordered| {
      locals := [];
      NothingParsed(ordered[i..], cursor);
    } else {
      var next := NextOffset(ordered, i, directory);
      LocalStart(p, cursor, ordered[i], next);
      var rest := LocalsAreParsed(p, ordered, i + 1, next, directory);
      LocalExact(p, cursor, ordered[i], next);
      var first := p[cursor..next];
      locals := [first] + rest;
      LocalsCons(first, rest, ordered[i..], cursor);
      assert ordered[i..][1..] == ordered[i + 1..];
      JoinedCons(first, rest, 0);
      assert p[cursor..directory] == first + p[next..directory];
    }
  }

  lemma LocalStart(p: Bytes, cursor: nat, info: Info, next: nat)
    requires LocalFills(p, cursor, info, next)
    ensures cursor + 30 <= next
  {
  }

  lemma {:induction false} ParsedAreLocals(p: Bytes, ordered: seq<Info>, i: nat, cursor: nat, directory: nat,
                                           locals: seq<Bytes>)
    requires cursor <= directory <= |p| && i <= |ordered|
    requires LocalsParsed(locals, ordered[i..], cursor) && Joined(locals) == p[cursor..directory]
    ensures LocalsTile(p, ordered, i, cursor, directory)
    decreases |ordered| - i
  {
    hide LocalFills, IsLocal;
    if i == |ordered| {
      assert |p[cursor..directory]| == 0;
    } else {
      var first, rest := locals[0], locals[1..];
      assert locals == [first] + rest;
      var next := cursor + |first|;
      LocalsCons(first, rest, ordered[i..], cursor);
      JoinedCons(first, rest, 0);
      assert ordered[i..][1..] == ordered[i + 1..];
      assert |p[cursor..directory]| == |first| + |Joined(rest)|;
      assert p[cursor..next] == p[cursor..directory][..|first|] == first;
      assert p[next..directory] == p[cursor..directory][|first|..] == Joined(rest);
      LocalExact(p, cursor, ordered[i], next);
      NextParsed(ordered, i, next, directory, rest);
      ParsedAreLocals(p, ordered, i + 1, next, directory, rest);
    }
  }

  lemma NextParsed(ordered: seq<Info>, i: nat, next: nat, directory: nat, rest: seq<Bytes>)
    requires i < |ordered| && LocalsParsed(rest, ordered[i + 1..], next)
    requires next + |Joined(rest)| == directory
    ensures NextOffset(ordered, i, directory) == next
  {
    hide IsLocal;
    if i + 1 < |ordered| {
      assert ordered[i + 1..][0] == ordered[i + 1] && rest[..0] == [];
    } else {
      assert rest == [];
    }
  }

  /** Members in the order of their records are in the order of their offsets, and no two share one. */
  lemma OffsetsRise(locals: seq<Bytes>, ordered: seq<Info>, start: nat, i: nat, j: nat)
    requires LocalsParsed(locals, ordered, start) && i < j < |ordered|
    ensures ordered[i].offset < ordered[j].offset
    decreases j - i
  {
    hide IsLocal;
    assert locals[..i + 1] == locals[..i] + [locals[i]];
    JoinedLast(locals[..i], locals[i]);
    assert ordered[i].offset == start + |Joined(locals[..i])|;
    LocalIsLong(locals[i], ordered[i]);
    if i + 1 < j {
      OffsetsRise(locals, ordered, start, i + 1, j);
    }
  }

  lemma {:induction false} JoinedLast(parts: seq<Bytes>, last: Bytes)
    ensures Joined(parts + [last]) == Joined(parts) + last
  {
    if parts == [] {
      assert [last][1..] == [];
    } else {
      JoinedLast(parts[1..], last);
      assert (parts + [last])[1..] == parts[1..] + [last];
    }
  }

  lemma LocalIsLong(b: Bytes, info: Info)
    requires IsLocal(b, info)
    ensures |b| >= 30
  {
    hide Pack, IsTail, Shaped;
    var f: seq<Field>, body: Body :| LocalParsed(b, info, f, body);
    assert |b| >= 4 + |Pack(f)|;
    ShapedWidth(f, LOCAL_WIDTHS);
    LocalOffsets();
  }

  lemma SameFirst(a: seq<Info>, b: seq<Info>)
    requires Sorted(a, OffsetLe) && multiset(a) == multiset(b) && a != [] && b != []
    requires forall i, j :: 0 <= i < j < |b| ==> b[i].offset < b[j].offset
    ensures a[0] == b[0]
  {
    assert a[0] in multiset(b) && b[0] in multiset(a);
    var j :| 0 <= j < |b| && b[j] == a[0];
    var i :| 0 <= i < |a| && a[i] == b[0];
    assert i > 0 ==> OffsetLe(a[0], a[i]);
  }

  lemma TailOf(s: seq<Info>)
    requires s != []
    ensures multiset(s[1..]) == multiset(s) - multiset{s[0]}
  {
    assert s == [s[0]] + s[1..];
  }

  /** Sorting by offset finds the order of the records, in whatever order the directory lists them. */
  lemma {:induction false} OrderFound(a: seq<Info>, b: seq<Info>)
    requires Sorted(a, OffsetLe) && multiset(a) == multiset(b)
    requires forall i, j :: 0 <= i < j < |b| ==> b[i].offset < b[j].offset
    ensures a == b
    decreases |a|
  {
    assert |multiset(a)| == |a| && |multiset(b)| == |b|;
    if a != [] {
      SameFirst(a, b);
      TailOf(a);
      TailOf(b);
      OrderFound(a[1..], b[1..]);
      assert a == [a[0]] + a[1..] && b == [b[0]] + b[1..];
    }
  }

  /** A payload, cut into local records, directory entries and the end record. */
  ghost predicate ArchiveParsed(p: Bytes, d: Directory, ordered: seq<Info>, locals: seq<Bytes>, entries: seq<Bytes>,
                                last: Bytes)
  {
    && multiset(ordered) == multiset(d.infos) && ordered != []
    && LocalsParsed(locals, ordered, 0) && d.start == |Joined(locals)|
    && EntriesParsed(entries) && |entries| == |d.infos|
    && IsEnd(last, |d.infos|, |Joined(entries)|, |Joined(locals)|)
    && p == Joined(locals) + Joined(entries) + last
  }

  /** The payload is an archive of these members and nothing else. */
  ghost predicate IsArchive(p: Bytes, d: Directory) {
    exists ordered: seq<Info>, locals: seq<Bytes>, entries: seq<Bytes>, last: Bytes ::
      ArchiveParsed(p, d, ordered, locals, entries, last)
  }

  lemma EndLength(last: Bytes, count: nat, size: nat, start: nat)
    requires IsEnd(last, count, size, start)
    ensures |last| == 22
  {
    EndIs22(count, size, start);
    hide Pack;
  }

  lemma ArchiveIsParsed(p: Bytes, d: Directory)
    requires Tiled(p, d)
    ensures IsArchive(p, d)
  {
    hide LocalsTile, DirectoryTiles, LocalsParsed, EntriesParsed, IsEnd, EndsProperly, EndRecordFits, Joined;
    EndSize(p);
    var end := |p| - 22;
    var ordered := Sort(d.infos, OffsetLe);
    EndExact(p, d.infos, d.start);
    var entries := DirectoryIsParsed(p, d.start, |d.infos|, end);
    var locals := LocalsAreParsed(p, ordered, 0, 0, d.start);
    assert ordered[0..] == ordered;
    assert p == p[0..d.start] + p[d.start..end] + p[end..];
    assert ArchiveParsed(p, d, ordered, locals, entries, p[end..]);
  }

  lemma EndSize(p: Bytes)
    requires EndsProperly(p)
    ensures |p| >= 22
  {
  }

  lemma ParsedIsTiled(p: Bytes, d: Directory)
    requires IsArchive(p, d)
    ensures Tiled(p, d)
  {
    hide LocalsTile, DirectoryTiles, LocalsParsed, EntriesParsed, IsEnd, EndsProperly, EndRecordFits, Joined;
    var ordered: seq<Info>, locals: seq<Bytes>, entries: seq<Bytes>, last: Bytes :|
      ArchiveParsed(p, d, ordered, locals, entries, last);
    var a, b := Joined(locals), Joined(entries);
    EndLength(last, |d.infos|, |b|, |a|);
    var end := |p| - 22;
    assert p[0..|a|] == a && p[|a|..end] == b && p[end..] == last;
    EndExact(p, d.infos, d.start);
    ParsedIsDirectory(p, d.start, entries, end);
    assert ordered[0..] == ordered;
    ParsedAreLocals(p, ordered, 0, 0, d.start, locals);
    forall i, j | 0 <= i < j < |ordered|
      ensures ordered[i].offset < ordered[j].offset
    {
      OffsetsRise(locals, ordered, 0, i, j);
    }
    SortedByOffset(d.infos);
    OrderFound(Sort(d.infos, OffsetLe), ordered);
    assert |multiset(ordered)| == |ordered| && |multiset(d.infos)| == |d.infos|;
  }

  lemma SortedByOffset(infos: seq<Info>)
    ensures Sorted(Sort(infos, OffsetLe), OffsetLe)
  {
    SortSorted(infos, OffsetLe);
  }

  /** The coverage check accepts exactly the archives of the grammar. */
  lemma TiledExact(p: Bytes, d: Directory)
    ensures Tiled(p, d) <==> IsArchive(p, d)
  {
    hide Tiled, IsArchive;
    if Tiled(p, d) {
      ArchiveIsParsed(p, d);
    }
    if IsArchive(p, d) {
      ParsedIsTiled(p, d);
    }
  }
}
