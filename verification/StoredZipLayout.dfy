/** The bytes of an archive, field by field, and the way from its end back to every entry. */
module StoredZipLayout {
  import opened ByteValues
  import opened Crc32
  import opened StoredZip
  import opened StoredZipProofs
  import opened Wrappers

  // ---------------------------------------------------------------- fields

  predicate Has16(bytes: Bytes, at: nat, n: nat) { at + 2 <= |bytes| && U16At(bytes, at) == n }

  predicate Has32(bytes: Bytes, at: nat, n: nat) { at + 4 <= |bytes| && U32At(bytes, at) == n }

  /** A part of a longer text that is a little-endian number. */
  lemma Field16(bytes: Bytes, at: nat, part: Bytes, k: nat, n: nat)
    requires at + |part| <= |bytes| && bytes[at..at + |part|] == part
    requires k + 2 <= |part| && n < 0x10000 && part[k..k + 2] == U16(n)
    ensures Has16(bytes, at + k, n)
  {
    hide U16, U16At;
    SliceOfSlice(bytes, at, |part|, k, k + 2);
    ReadsBackU16(bytes, at + k, n);
  }

  lemma Field32(bytes: Bytes, at: nat, part: Bytes, k: nat, n: nat)
    requires at + |part| <= |bytes| && bytes[at..at + |part|] == part
    requires k + 4 <= |part| && n < 0x1_0000_0000 && part[k..k + 4] == U32(n)
    ensures Has32(bytes, at + k, n)
  {
    hide U32, U32At;
    SliceOfSlice(bytes, at, |part|, k, k + 4);
    ReadsBackU32(bytes, at + k, n);
  }

  // ---------------------------------------------------------------- the end record

  lemma EndSlices(count: nat, centralSize: nat, centralOffset: nat)
    requires count < 0x10000
    ensures var r := EndRecord(count, centralSize, centralOffset);
            r[0..4] == U32(0x06054b50) && r[4..6] == U16(0) && r[6..8] == U16(0) && r[8..10] == U16(count) &&
            r[10..12] == U16(count) && r[12..16] == U32(centralSize) && r[16..20] == U32(centralOffset) &&
            r[20..22] == U16(0)
  {
    hide U16, U32;
  }

  /** The record at `end`: counts on one disk, size and place of the directory, and no comment. */
  predicate IsEndRecord(zip: Bytes, end: nat, count: nat, size: nat, offset: nat) {
    Has32(zip, end, 0x06054b50) && Has16(zip, end + 4, 0) && Has16(zip, end + 6, 0) && Has16(zip, end + 8, count) &&
    Has16(zip, end + 10, count) && Has32(zip, end + 12, size) && Has32(zip, end + 16, offset) && Has16(zip, end + 20, 0)
  }

  lemma EndFields(zip: Bytes, end: nat, count: nat, size: nat, offset: nat)
    requires count < 0x10000 && size < 0x1_0000_0000 && offset < 0x1_0000_0000
    requires end + 22 <= |zip| && zip[end..end + 22] == EndRecord(count, size, offset)
    ensures IsEndRecord(zip, end, count, size, offset)
  {
    hide U16, U32, EndRecord, Has16, Has32;
    EndSlices(count, size, offset);
    var r := EndRecord(count, size, offset);
    Field32(zip, end, r, 0, 0x06054b50);
    Field16(zip, end, r, 4, 0);
    Field16(zip, end, r, 6, 0);
    Field16(zip, end, r, 8, count);
    Field16(zip, end, r, 10, count);
    Field32(zip, end, r, 12, size);
    Field32(zip, end, r, 16, offset);
    Field16(zip, end, r, 20, 0);
  }

  /** Where one gets by passing over n central records, each as long as its own fields say; -1 if there is none. */
  function Walk(zip: Bytes, at: nat, n: nat): int
    decreases n
  {
    if n == 0 then at
    else if at + 46 > |zip| || U32At(zip, at) != 0x02014b50 then -1
    else Walk(zip, at + 46 + U16At(zip, at + 28) + U16At(zip, at + 30) + U16At(zip, at + 32), n - 1)
  }

  /** The end record closes the archive, names the directory before it, and walking that directory leads back to the
      end record. */
  lemma EndRecordIs(entries: seq<Entry>)
    requires Writable(entries) && |Archive(entries)| <= MAX_ARTIFACT_BYTES
    ensures var zip := Archive(entries);
            |zip| >= 22 && var end := |zip| - 22;
            var offset, size := U32At(zip, end + 16), U32At(zip, end + 12);
            IsEndRecord(zip, end, |entries|, size, offset) && offset + size == end &&
            Walk(zip, offset, |entries|) == end
  {
    hide AcceptedName, Locals, Centrals, EndRecord, U16At, U32At, Central;
    var zip := Archive(entries);
    var size, offset := |Centrals(entries)|, |Locals(entries)|;
    var end := |zip| - 22;
    assert zip[end..end + 22] == EndRecord(|entries|, size, offset);
    EndFields(zip, end, |entries|, size, offset);
    assert offset == CentralStart(entries, 0) by {
      NoCentrals(entries);
    }
    WalkFrom(entries, 0);
  }

  lemma NoCentrals(entries: seq<Entry>)
    requires AllWritable(entries)
    ensures entries[..0] == [] && |Centrals(entries[..0])| == 0
  {}

  lemma NextCentral(entries: seq<Entry>, i: nat)
    requires AllWritable(entries) && i < |entries|
    ensures WritableName(entries[i].name)
    ensures CentralStart(entries, i + 1) == CentralStart(entries, i) + 46 + |entries[i].name|
  {
    hide AcceptedName, Central, Locals;
    assert entries[..i + 1][..i] == entries[..i] && entries[..i + 1][i] == entries[i];
  }

  lemma {:induction false} WalkFrom(entries: seq<Entry>, i: nat)
    requires Writable(entries) && |Archive(entries)| <= MAX_ARTIFACT_BYTES && i <= |entries|
    ensures Walk(Archive(entries), CentralStart(entries, i), |entries| - i) == |Archive(entries)| - 22
    decreases |entries| - i
  {
    hide AcceptedName, Locals, Centrals, Central, EndRecord, U16At, U32At;
    var zip := Archive(entries);
    if i < |entries| {
      CentralIs(entries, i);
      NextCentral(entries, i);
      WalkFrom(entries, i + 1);
    } else {
      assert entries[..i] == entries;
    }
  }

  // ---------------------------------------------------------------- the headers

  lemma AllLocalSlices(nameLength: nat, size: nat, crc: nat)
    requires nameLength < 0x10000
    ensures var h := LocalHeader(nameLength, size, crc);
            h[0..4] == U32(0x04034b50) && h[4..6] == U16(20) && h[6..8] == U16(0x0800) && h[8..10] == U16(0) &&
            h[10..12] == U16(0) && h[12..14] == U16(0) && h[14..18] == U32(crc) && h[18..22] == U32(size) &&
            h[22..26] == U32(size) && h[26..28] == U16(nameLength) && h[28..30] == U16(0)
  {
    hide U16, U32;
  }

  /** A local record: version 2.0, names in UTF-8, stored, no date, and checksum, sizes and name of the entry. */
  predicate IsLocal(zip: Bytes, at: nat, e: Entry, crc: nat) {
    Has32(zip, at, 0x04034b50) && Has16(zip, at + 4, 20) && Has16(zip, at + 6, 0x0800) && Has16(zip, at + 8, 0) &&
    Has16(zip, at + 10, 0) && Has16(zip, at + 12, 0) && Has32(zip, at + 14, crc) && Has32(zip, at + 18, |e.data|) &&
    Has32(zip, at + 22, |e.data|) && Has16(zip, at + 26, |e.name|) && Has16(zip, at + 28, 0) &&
    at + 30 + |e.name| + |e.data| <= |zip| && Spells(zip, at + 30, e.name) &&
    zip[at + 30 + |e.name|..at + 30 + |e.name| + |e.data|] == e.data
  }

  /** The characters of a name, one byte each. */
  predicate Spells(zip: Bytes, at: nat, name: string) {
    at + |name| <= |zip| && forall k :: 0 <= k < |name| ==> Value(zip[at + k]) == name[k] as int
  }

  lemma NameIsSpelled(zip: Bytes, at: nat, name: string)
    requires AcceptedName(name) && at + |name| <= |zip| && zip[at..at + |name|] == NameBytes(name)
    ensures Spells(zip, at, name)
  {
    forall k | 0 <= k < |name|
      ensures Value(zip[at + k]) == name[k] as int
    {
      assert zip[at + k] == NameBytes(name)[k] && NameChar(name[k]);
      ValueOfByte(name[k] as int);
    }
  }

  lemma LocalFields(zip: Bytes, at: nat, e: Entry)
    requires RecordAt(zip, at, e, e.data) && |e.data| < 0x1_0000_0000
    ensures IsLocal(zip, at, e, CrcNumber(e.data))
  {
    hide U16, U32, LocalHeader, NameBytes, CrcNumber, AcceptedName, Has16, Has32, Spells;
    var h := LocalHeader(|e.name|, |e.data|, CrcNumber(e.data));
    AllLocalSlices(|e.name|, |e.data|, CrcNumber(e.data));
    Field32(zip, at, h, 0, 0x04034b50);
    Field16(zip, at, h, 4, 20);
    Field16(zip, at, h, 6, 0x0800);
    Field16(zip, at, h, 8, 0);
    Field16(zip, at, h, 10, 0);
    Field16(zip, at, h, 12, 0);
    Field32(zip, at, h, 14, CrcNumber(e.data));
    Field32(zip, at, h, 18, |e.data|);
    Field32(zip, at, h, 22, |e.data|);
    Field16(zip, at, h, 26, |e.name|);
    Field16(zip, at, h, 28, 0);
    NameIsSpelled(zip, at + 30, e.name);
  }

  /** The local records stand one after the other from the first byte on, in the order of the entries. */
  lemma LocalIs(entries: seq<Entry>, i: nat)
    requires Writable(entries) && |Archive(entries)| <= MAX_ARTIFACT_BYTES && i < |entries|
    ensures IsLocal(Archive(entries), LocalStart(entries, i), entries[i], CrcNumber(entries[i].data))
    ensures LocalStart(entries, 0) == 0
    ensures LocalStart(entries, i + 1) == LocalStart(entries, i) + 30 + |entries[i].name| + |entries[i].data|
  {
    hide AcceptedName, Locals, Directory, RecordAt, IsLocal, CrcNumber;
    ArchiveIsIntact(entries);
    assert RecordInPlace(Archive(entries), entries, i);
    EmptyLocals(entries);
    NextLocal(entries, i);
    SizeIsSmall(entries, i);
    LocalFields(Archive(entries), LocalStart(entries, i), entries[i]);
  }

  lemma SizeIsSmall(entries: seq<Entry>, i: nat)
    requires Writable(entries) && |Archive(entries)| <= MAX_ARTIFACT_BYTES && i < |entries|
    ensures |entries[i].data| < 0x1_0000_0000 && LocalStart(entries, i) < 0x1_0000_0000
  {
    hide AcceptedName, Locals, Directory;
    LocalInPlace(entries, i);
  }

  lemma CentralSlicesBefore(nameLength: nat, size: nat, crc: nat, offset: nat)
    requires nameLength < 0x10000
    ensures var h := CentralHeader(nameLength, size, crc, offset);
            h[0..4] == U32(0x02014b50) && h[4..6] == U16(20) && h[6..8] == U16(20) && h[8..10] == U16(0x0800) &&
            h[10..12] == U16(0) && h[12..14] == U16(0) && h[14..16] == U16(0)
  {
    hide U16, U32;
  }

  lemma CentralSlicesBetween(nameLength: nat, size: nat, crc: nat, offset: nat)
    requires nameLength < 0x10000
    ensures var h := CentralHeader(nameLength, size, crc, offset);
            h[16..20] == U32(crc) && h[20..24] == U32(size) && h[24..28] == U32(size) && h[28..30] == U16(nameLength)
  {
    hide U16, U32;
  }

  lemma CentralSlicesAfter(nameLength: nat, size: nat, crc: nat, offset: nat)
    requires nameLength < 0x10000
    ensures var h := CentralHeader(nameLength, size, crc, offset);
            h[30..32] == U16(0) && h[32..34] == U16(0) && h[34..36] == U16(0) && h[36..38] == U16(0) &&
            h[38..42] == U32(0) && h[42..46] == U32(offset)
  {
    hide U16, U32;
  }

  /** A central record: the same description, no extra field, no comment, no attributes, and the place of the local
      record. */
  predicate IsCentral(zip: Bytes, at: nat, e: Entry, crc: nat, offset: nat) {
    Has32(zip, at, 0x02014b50) && Has16(zip, at + 4, 20) && Has16(zip, at + 6, 20) && Has16(zip, at + 8, 0x0800) &&
    Has16(zip, at + 10, 0) && Has16(zip, at + 12, 0) && Has16(zip, at + 14, 0) && Has32(zip, at + 16, crc) &&
    Has32(zip, at + 20, |e.data|) && Has32(zip, at + 24, |e.data|) && Has16(zip, at + 28, |e.name|) &&
    Has16(zip, at + 30, 0) && Has16(zip, at + 32, 0) && Has16(zip, at + 34, 0) && Has16(zip, at + 36, 0) &&
    Has32(zip, at + 38, 0) && Has32(zip, at + 42, offset) && Spells(zip, at + 46, e.name)
  }

  lemma CentralIs(entries: seq<Entry>, i: nat)
    requires Writable(entries) && |Archive(entries)| <= MAX_ARTIFACT_BYTES && i < |entries|
    ensures IsCentral(Archive(entries), CentralStart(entries, i), entries[i], CrcNumber(entries[i].data),
                      LocalStart(entries, i))
  {
    hide U16, U32, Archive, CentralHeader, LocalStart, CentralStart, NameBytes, CrcNumber, AcceptedName, Has16, Has32;
    hide Spells;
    var zip, at, e := Archive(entries), CentralStart(entries, i), entries[i];
    CentralInArchive(entries, i);
    SizeIsSmall(entries, i);
    var crc, offset := CrcNumber(e.data), LocalStart(entries, i);
    var h := CentralHeader(|e.name|, |e.data|, crc, offset);
    CentralSlicesBefore(|e.name|, |e.data|, crc, offset);
    CentralSlicesBetween(|e.name|, |e.data|, crc, offset);
    CentralSlicesAfter(|e.name|, |e.data|, crc, offset);
    Field32(zip, at, h, 0, 0x02014b50);
    Field16(zip, at, h, 4, 20);
    Field16(zip, at, h, 6, 20);
    Field16(zip, at, h, 8, 0x0800);
    Field16(zip, at, h, 10, 0);
    Field16(zip, at, h, 12, 0);
    Field16(zip, at, h, 14, 0);
    Field32(zip, at, h, 16, crc);
    Field32(zip, at, h, 20, |e.data|);
    Field32(zip, at, h, 24, |e.data|);
    Field16(zip, at, h, 28, |e.name|);
    Field16(zip, at, h, 30, 0);
    Field16(zip, at, h, 32, 0);
    Field16(zip, at, h, 34, 0);
    Field16(zip, at, h, 36, 0);
    Field32(zip, at, h, 38, 0);
    Field32(zip, at, h, 42, offset);
    NameIsSpelled(zip, at + 46, e.name);
  }
}
