/** The reader undoes the writer, and notices damage to stored data. */
module StoredZipProofs {
  import opened Crc32
  import opened StoredZip
  import opened Wrappers

  // ---------------------------------------------------------------- fields of the two headers

  lemma SliceOfSlice(bytes: Bytes, offset: nat, size: nat, a: nat, b: nat)
    requires a <= b <= size && offset + size <= |bytes|
    ensures bytes[offset..offset + size][a..b] == bytes[offset + a..offset + b]
  {
    var whole := bytes[offset..offset + size];
    assert forall k :: 0 <= k < b - a ==> whole[a..b][k] == bytes[offset + a + k];
  }

  lemma LocalHeaderSlices(nameLength: nat, size: nat, crc: nat)
    requires nameLength < 0x10000
    ensures var h := LocalHeader(nameLength, size, crc);
            h[0..4] == U32(LOCAL_SIGNATURE) && h[6..8] == U16(0x0800) && h[8..10] == U16(0) && h[14..18] == U32(crc) &&
            h[18..22] == U32(size) && h[22..26] == U32(size) && h[26..28] == U16(nameLength) && h[28..30] == U16(0)
  {
    hide U16, U32;
  }

  lemma LocalHeaderFields(bytes: Bytes, offset: nat, nameLength: nat, size: nat, crc: nat)
    requires nameLength < 0x10000 && offset + 30 <= |bytes|
    requires bytes[offset..offset + 30] == LocalHeader(nameLength, size, crc)
    ensures U32At(bytes, offset) == LOCAL_SIGNATURE
    ensures U16At(bytes, offset + 6) == 0x0800 && U16At(bytes, offset + 8) == 0
    ensures U32At(bytes, offset + 14) == crc % 0x1_0000_0000
    ensures U32At(bytes, offset + 18) == U32At(bytes, offset + 22) == size % 0x1_0000_0000
    ensures U16At(bytes, offset + 26) == nameLength && U16At(bytes, offset + 28) == 0
  {
    hide U16, U32, U16At, U32At, LocalHeader;
    LocalHeaderSlices(nameLength, size, crc);
    SliceOfSlice(bytes, offset, 30, 0, 4);
    SliceOfSlice(bytes, offset, 30, 6, 8);
    SliceOfSlice(bytes, offset, 30, 8, 10);
    SliceOfSlice(bytes, offset, 30, 14, 18);
    SliceOfSlice(bytes, offset, 30, 18, 22);
    SliceOfSlice(bytes, offset, 30, 22, 26);
    SliceOfSlice(bytes, offset, 30, 26, 28);
    SliceOfSlice(bytes, offset, 30, 28, 30);
    ReadsBackU32(bytes, offset, LOCAL_SIGNATURE);
    ReadsBackU16(bytes, offset + 6, 0x0800);
    ReadsBackU16(bytes, offset + 8, 0);
    ReadsBackU32(bytes, offset + 14, crc);
    ReadsBackU32(bytes, offset + 18, size);
    ReadsBackU32(bytes, offset + 22, size);
    ReadsBackU16(bytes, offset + 26, nameLength);
    ReadsBackU16(bytes, offset + 28, 0);
  }

  lemma CentralHeaderSlices(nameLength: nat, size: nat, crc: nat, offset: nat)
    requires nameLength < 0x10000
    ensures var h := CentralHeader(nameLength, size, crc, offset);
            h[0..4] == U32(CENTRAL_SIGNATURE) && h[16..20] == U32(crc) && h[20..24] == U32(size) &&
            h[24..28] == U32(size) && h[28..30] == U16(nameLength) && h[42..46] == U32(offset)
  {
    hide U16, U32;
  }

  // ---------------------------------------------------------------- one entry

  /** The bytes from `offset` on start with the local record of e, except that its data may differ. */
  ghost predicate RecordAt(bytes: Bytes, offset: nat, e: Entry, data: Bytes) {
    WritableName(e.name) && |data| == |e.data| && offset + |Local(e)| <= |bytes| &&
    bytes[offset..offset + 30] == LocalHeader(|e.name|, |e.data|, CrcNumber(e.data)) &&
    bytes[offset + 30..offset + 30 + |e.name|] == NameBytes(e.name) &&
    bytes[offset + 30 + |e.name|..offset + |Local(e)|] == data
  }

  lemma FlagBit()
    ensures 0x0800 / 8 % 2 == 0
  {}

  /** What the reader makes of such a record: the entry itself, or a checksum error. */
  lemma ReadsRecord(bytes: Bytes, offset: nat, e: Entry, data: Bytes, got: seq<Entry>)
    requires RecordAt(bytes, offset, e, data)
    requires |e.data| <= MAX_ARTIFACT_BYTES && |got| < MAX_ENTRIES && !HasName(got, e.name)
    ensures U32At(bytes, offset) == LOCAL_SIGNATURE
    ensures ReadEntry(bytes, offset, got) ==
              if CrcNumber(data) == CrcNumber(e.data) then Ok((Entry(e.name, data), offset + |Local(e)|))
              else Err(ChecksumInvalid)
  {
    hide U16At, U32At, LocalHeader, NameBytes, DecodedName, AcceptedName, CrcNumber, HasName;
    LocalHeaderFields(bytes, offset, |e.name|, |e.data|, CrcNumber(e.data));
    NameRoundTrip(e.name);
    FlagBit();
  }

  lemma RecordOfLocal(bytes: Bytes, offset: nat, e: Entry)
    requires WritableName(e.name) && offset + |Local(e)| <= |bytes| && bytes[offset..offset + |Local(e)|] == Local(e)
    ensures RecordAt(bytes, offset, e, e.data)
  {
    hide LocalHeader, NameBytes, AcceptedName, CrcNumber;
    var n, record := |Local(e)|, Local(e);
    assert record[0..30] == LocalHeader(|e.name|, |e.data|, CrcNumber(e.data));
    assert record[30..30 + |e.name|] == NameBytes(e.name) && record[30 + |e.name|..n] == e.data;
    SliceOfSlice(bytes, offset, n, 0, 30);
    SliceOfSlice(bytes, offset, n, 30, 30 + |e.name|);
    SliceOfSlice(bytes, offset, n, 30 + |e.name|, n);
  }

  // ---------------------------------------------------------------- all entries

  /** Where the local record of entry i starts. */
  function LocalStart(entries: seq<Entry>, i: nat): nat
    requires AllWritable(entries) && i <= |entries|
  {
    |Locals(entries[..i])|
  }

  lemma NextLocal(entries: seq<Entry>, i: nat)
    requires AllWritable(entries) && i < |entries|
    ensures LocalStart(entries, i + 1) == LocalStart(entries, i) + |Local(entries[i])|
    ensures Locals(entries[..i + 1]) == Locals(entries[..i]) + Local(entries[i])
  {
    hide AcceptedName, Local;
    assert entries[..i + 1][..i] == entries[..i];
  }

  lemma {:induction false} LocalsPrefix(entries: seq<Entry>, i: nat)
    requires AllWritable(entries) && i <= |entries|
    ensures LocalStart(entries, i) <= |Locals(entries)|
    ensures Locals(entries)[..LocalStart(entries, i)] == Locals(entries[..i])
    decreases |entries| - i
  {
    hide AcceptedName, Local;
    if i == |entries| {
      assert entries[..i] == entries;
    } else {
      LocalsPrefix(entries, i + 1);
      NextLocal(entries, i);
    }
  }

  lemma LocalInPlace(entries: seq<Entry>, i: nat)
    requires AllWritable(entries) && i < |entries|
    ensures WritableName(entries[i].name)
    ensures LocalStart(entries, i) + |Local(entries[i])| <= |Locals(entries)|
    ensures Locals(entries)[LocalStart(entries, i)..LocalStart(entries, i) + |Local(entries[i])|] == Local(entries[i])
  {
    hide AcceptedName, Local;
    LocalsPrefix(entries, i);
    LocalsPrefix(entries, i + 1);
    NextLocal(entries, i);
    var all, s, n := Locals(entries), LocalStart(entries, i), |Local(entries[i])|;
    assert all[s..s + n] == all[..s + n][s..];
  }

  /** Local records up to `upto` are undamaged in `bytes`. */
  ghost predicate IntactBefore(bytes: Bytes, entries: seq<Entry>, upto: nat) {
    AllWritable(entries) && Distinct(entries) && upto <= |entries| &&
    |bytes| <= MAX_ARTIFACT_BYTES && LocalStart(entries, upto) <= |bytes| &&
    forall j :: 0 <= j < upto ==> RecordInPlace(bytes, entries, j)
  }

  ghost predicate RecordInPlace(bytes: Bytes, entries: seq<Entry>, j: nat)
    requires AllWritable(entries) && j < |entries|
  {
    RecordAt(bytes, LocalStart(entries, j), entries[j], entries[j].data)
  }

  lemma ReadsOneIntact(bytes: Bytes, entries: seq<Entry>, i: nat, upto: nat)
    requires IntactBefore(bytes, entries, upto) && i < upto && i <= MAX_ENTRIES
    ensures LocalStart(entries, i) + 30 <= LocalStart(entries, i + 1) <= |bytes|
    ensures U32At(bytes, LocalStart(entries, i)) == LOCAL_SIGNATURE
    ensures ReadEntry(bytes, LocalStart(entries, i), entries[..i]) ==
              if i == MAX_ENTRIES then Err(TooManyEntries) else Ok((entries[i], LocalStart(entries, i + 1)))
  {
    hide AcceptedName, Locals, U32At, RecordAt, LocalHeader, HasName;
    var e, s := entries[i], LocalStart(entries, i);
    assert RecordInPlace(bytes, entries, i);
    RecordFacts(bytes, s, e, e.data);
    NextLocal(entries, i);
    if i < MAX_ENTRIES {
      NotYetRead(entries, i);
      ReadsRecord(bytes, s, e, e.data, entries[..i]);
    }
  }

  /** Reading past intact records: the reader reaches record `upto`, or gives up at record 128. */
  lemma {:induction false} ReadsIntact(bytes: Bytes, entries: seq<Entry>, i: nat, upto: nat)
    requires IntactBefore(bytes, entries, upto) && i <= upto
    requires i <= MAX_ENTRIES && LocalStart(entries, i) <= |bytes|
    ensures ReadFrom(bytes, LocalStart(entries, i), entries[..i]) ==
              if upto > MAX_ENTRIES then Err(TooManyEntries)
              else ReadFrom(bytes, LocalStart(entries, upto), entries[..upto])
    decreases upto - i
  {
    hide WritableName, Locals, U32At, RecordAt, ReadEntry;
    if i < upto {
      ReadsOneIntact(bytes, entries, i, upto);
      if i < MAX_ENTRIES {
        assert entries[..i] + [entries[i]] == entries[..i + 1];
        ReadsIntact(bytes, entries, i + 1, upto);
      }
    }
  }

  lemma RecordFacts(bytes: Bytes, offset: nat, e: Entry, data: Bytes)
    requires RecordAt(bytes, offset, e, data)
    ensures |e.name| < 0x10000 && offset + 30 + |e.name| + |e.data| <= |bytes|
    ensures U32At(bytes, offset) == LOCAL_SIGNATURE
  {
    hide U16At, U32At, LocalHeader, NameBytes, AcceptedName, CrcNumber;
    LocalHeaderFields(bytes, offset, |e.name|, |e.data|, CrcNumber(e.data));
  }

  lemma NotYetRead(entries: seq<Entry>, i: nat)
    requires Distinct(entries) && i < |entries|
    ensures !HasName(entries[..i], entries[i].name)
  {}

  // ---------------------------------------------------------------- round trip

  lemma DirectorySignature(entries: seq<Entry>)
    requires AllWritable(entries) && |entries| < 0x10000
    ensures |Directory(entries)| >= 4
    ensures Directory(entries)[..4] == U32(if entries == [] then END_SIGNATURE else CENTRAL_SIGNATURE)
    decreases |entries|
  {
    hide AcceptedName, U16, U32, CrcNumber, NameBytes;
    if entries == [] {
      assert Centrals(entries) == [];
    } else {
      CentralsSignature(entries);
      assert Directory(entries)[..4] == Centrals(entries)[..4];
    }
  }

  lemma {:induction false} CentralsSignature(entries: seq<Entry>)
    requires AllWritable(entries) && entries != []
    ensures |Centrals(entries)| >= 46 && Centrals(entries)[..4] == U32(CENTRAL_SIGNATURE)
    decreases |entries|
  {
    hide AcceptedName, U16, U32, CrcNumber, NameBytes, Locals;
    var last := |entries| - 1;
    if last == 0 {
      assert Centrals(entries[..0]) == [];
      var e, at := entries[0], |Locals(entries[..0])|;
      CentralHeaderSlices(|e.name|, |e.data|, CrcNumber(e.data), at);
      assert Centrals(entries) == Central(e, at);
      assert Central(e, at)[..4] == CentralHeader(|e.name|, |e.data|, CrcNumber(e.data), at)[0..4];
    } else {
      CentralsSignature(entries[..last]);
    }
  }

  lemma ArchiveIsIntact(entries: seq<Entry>)
    requires Writable(entries) && |Archive(entries)| <= MAX_ARTIFACT_BYTES
    ensures IntactBefore(Archive(entries), entries, |entries|)
  {
    hide AcceptedName, Local, Directory;
    var zip := Archive(entries);
    LocalsPrefix(entries, |entries|);
    forall j | 0 <= j < |entries|
      ensures RecordInPlace(zip, entries, j)
    {
      LocalInPlace(entries, j);
      var s, n := LocalStart(entries, j), |Local(entries[j])|;
      assert zip[s..s + n] == Locals(entries)[s..s + n];
      assert WritableName(entries[j].name);
      RecordOfLocal(zip, s, entries[j]);
    }
  }

  /** Reading what the writer wrote: exactly the entries, in order, or one of the three documented limits. */
  lemma RoundTrip(entries: seq<Entry>)
    requires Writable(entries)
    ensures ReadArchive(Archive(entries)) ==
              if |Archive(entries)| > MAX_ARTIFACT_BYTES then Err(TooLarge)
              else if |entries| > MAX_ENTRIES then Err(TooManyEntries)
              else if entries == [] then Err(NoEntries)
              else Ok(entries)
  {
    hide AcceptedName, Local, Directory, U32, U32At, RecordAt, Locals, Centrals, ReadEntry, IntactBefore;
    var zip := Archive(entries);
    if |zip| <= MAX_ARTIFACT_BYTES {
      ArchiveIsIntact(entries);
      EmptyLocals(entries);
      ReadsIntact(zip, entries, 0, |entries|);
      assert entries[..|entries|] == entries && entries[..0] == [];
      DirectorySignature(entries);
      var end := |Locals(entries)|;
      assert zip[end..end + 4] == Directory(entries)[..4];
      ReadsBackU32(zip, end, if entries == [] then END_SIGNATURE else CENTRAL_SIGNATURE);
    }
  }

  lemma EmptyLocals(entries: seq<Entry>)
    requires AllWritable(entries)
    ensures LocalStart(entries, 0) == 0
  {}

  // ---------------------------------------------------------------- damage

  function DataStart(entries: seq<Entry>, i: nat): nat
    requires AllWritable(entries) && i < |entries|
  {
    LocalStart(entries, i) + 30 + |entries[i].name|
  }

  /** `damaged` is the archive with some bytes changed, all of them among four consecutive ones and
      all of them inside the data of entry i. */
  ghost predicate DamagedData(entries: seq<Entry>, i: nat, damaged: Bytes, at: nat)
    requires AllWritable(entries) && |entries| < 0x10000 && i < |entries|
  {
    DifferWithinFour(Archive(entries), damaged, at) &&
    forall k :: 0 <= k < |damaged| && !(DataStart(entries, i) <= k < DataStart(entries, i) + |entries[i].data|) ==>
      damaged[k] == Archive(entries)[k]
  }

  /** Such damage never goes unnoticed; within the reader's limits it is reported as a bad checksum. */
  lemma DamageIsDetected(entries: seq<Entry>, i: nat, damaged: Bytes, at: nat)
    requires Writable(entries) && i < |entries|
    requires DamagedData(entries, i, damaged, at)
    ensures ReadArchive(damaged).Err?
    ensures |damaged| <= MAX_ARTIFACT_BYTES && i < MAX_ENTRIES ==> ReadArchive(damaged) == Err(ChecksumInvalid)
  {
    hide AcceptedName, Local, Directory, U32, U32At, RecordAt, Locals, Centrals, CrcNumber, HasName;
    if |damaged| <= MAX_ARTIFACT_BYTES {
      DamagedRecords(entries, i, damaged, at);
      EmptyLocals(entries);
      ReadsIntact(damaged, entries, 0, i);
      assert entries[..0] == [];
      if i <= MAX_ENTRIES {
        var s, e := LocalStart(entries, i), entries[i];
        var data := damaged[DataStart(entries, i)..DataStart(entries, i) + |e.data|];
        RecordFacts(damaged, s, e, data);
        if i < MAX_ENTRIES {
          NotYetRead(entries, i);
          ReadsRecord(damaged, s, e, data, entries[..i]);
        } else {
          assert ReadEntry(damaged, s, entries[..i]) == Err(TooManyEntries);
        }
      }
    }
  }

  /** The records before the damaged one are intact; the damaged one has its header, name and a wrong CRC. */
  lemma DamagedRecords(entries: seq<Entry>, i: nat, damaged: Bytes, at: nat)
    requires Writable(entries) && i < |entries| && |damaged| <= MAX_ARTIFACT_BYTES
    requires DamagedData(entries, i, damaged, at)
    ensures IntactBefore(damaged, entries, i)
    ensures DataStart(entries, i) + |entries[i].data| <= |damaged|
    ensures var data := damaged[DataStart(entries, i)..DataStart(entries, i) + |entries[i].data|];
            RecordAt(damaged, LocalStart(entries, i), entries[i], data) && CrcNumber(data) != CrcNumber(entries[i].data)
  {
    hide AcceptedName, Directory, U32, U32At, Locals, Centrals, CrcNumber, LocalHeader, NameBytes, RecordAt;
    var zip := Archive(entries);
    ArchiveIsIntact(entries);
    LocalsPrefix(entries, i);
    LocalInPlace(entries, i);
    var s, d, e := LocalStart(entries, i), DataStart(entries, i), entries[i];
    assert RecordInPlace(zip, entries, i);
    forall j | 0 <= j < i
      ensures RecordInPlace(damaged, entries, j)
    {
      EarlierEnds(entries, j, i);
      assert RecordInPlace(zip, entries, j);
      SameRecord(zip, damaged, LocalStart(entries, j), entries[j], s);
    }
    DamagedRecord(zip, damaged, s, e, at);
  }

  lemma {:induction false} EarlierEnds(entries: seq<Entry>, j: nat, i: nat)
    requires AllWritable(entries) && j < i <= |entries|
    ensures LocalStart(entries, j) + |Local(entries[j])| <= LocalStart(entries, i)
    decreases i - j
  {
    hide AcceptedName, Local;
    NextLocal(entries, i - 1);
    if j < i - 1 {
      EarlierEnds(entries, j, i - 1);
    }
  }

  lemma SameRecord(zip: Bytes, damaged: Bytes, offset: nat, e: Entry, limit: nat)
    requires RecordAt(zip, offset, e, e.data) && |damaged| == |zip| && offset + |Local(e)| <= limit <= |zip|
    requires forall k :: 0 <= k < limit ==> damaged[k] == zip[k]
    ensures RecordAt(damaged, offset, e, e.data)
  {
    hide LocalHeader, NameBytes, CrcNumber, AcceptedName;
    assert damaged[..limit] == zip[..limit];
    var n := |e.name|;
    assert damaged[offset..offset + 30] == zip[offset..offset + 30];
    assert damaged[offset + 30..offset + 30 + n] == zip[offset + 30..offset + 30 + n];
    assert damaged[offset + 30 + n..offset + |Local(e)|] == zip[offset + 30 + n..offset + |Local(e)|];
  }

  lemma DamagedRecord(zip: Bytes, damaged: Bytes, offset: nat, e: Entry, at: nat)
    requires RecordAt(zip, offset, e, e.data) && DifferWithinFour(zip, damaged, at)
    requires var d := offset + 30 + |e.name|;
             forall k :: 0 <= k < |damaged| && !(d <= k < d + |e.data|) ==> damaged[k] == zip[k]
    ensures var d := offset + 30 + |e.name|;
            d + |e.data| <= |damaged| && RecordAt(damaged, offset, e, damaged[d..d + |e.data|]) &&
            CrcNumber(damaged[d..d + |e.data|]) != CrcNumber(e.data)
  {
    hide LocalHeader, NameBytes, AcceptedName, Crc;
    var d := offset + 30 + |e.name|;
    assert damaged[offset..offset + 30] == zip[offset..offset + 30];
    assert damaged[offset + 30..d] == zip[offset + 30..d];
    var data := damaged[d..d + |e.data|];
    var k := DifferSomewhere(zip, damaged);
    assert data[k - d] != e.data[k - d];
    var from := if at < d then 0 else if at - d <= |data| then at - d else |data|;
    assert DifferWithinFour(e.data, data, from) by {
      forall k | 0 <= k < |data| && !(from <= k < from + 4)
        ensures e.data[k] == data[k]
      {
        assert damaged[d + k] == zip[d + k];
      }
    }
    BurstChangesCrc(e.data, data, from);
    CrcNumbersDiffer(Crc(e.data), Crc(data));
  }

  lemma DifferSomewhere(a: Bytes, b: Bytes) returns (k: nat)
    requires |a| == |b| && a != b
    ensures k < |a| && a[k] != b[k]
  {
    if forall i :: 0 <= i < |a| ==> a[i] == b[i] {
      assert false;
    }
    k :| 0 <= k < |a| && a[k] != b[k];
  }

  lemma CrcNumbersDiffer(a: bv32, b: bv32)
    requires a != b
    ensures a as int != b as int
  {
    BitsOfInt(a);
    BitsOfInt(b);
  }

  lemma BitsOfInt(a: bv32)
    ensures (a as int) as bv32 == a
  {}

  // ---------------------------------------------------------------- the central directory

  /** Where the central record of entry i starts. */
  function CentralStart(entries: seq<Entry>, i: nat): nat
    requires AllWritable(entries) && i <= |entries|
  {
    |Locals(entries)| + |Centrals(entries[..i])|
  }

  lemma {:induction false} CentralInPlace(entries: seq<Entry>, upto: nat, i: nat)
    requires AllWritable(entries) && i < upto <= |entries|
    ensures var s := |Centrals(entries[..i])|; var c := Central(entries[i], LocalStart(entries, i));
            s + |c| <= |Centrals(entries[..upto])| && Centrals(entries[..upto])[s..s + |c|] == c
    decreases upto
  {
    hide AcceptedName, Central, Locals;
    var last := upto - 1;
    assert entries[..upto][..last] == entries[..last];
    if i < last {
      CentralInPlace(entries, last, i);
    }
  }

  /** What a header says about its entry. */
  datatype Description = Missing | Description(crc: nat, size: nat, name: Bytes)

  function LocalDescription(bytes: Bytes, at: nat): Description {
    if at + 30 > |bytes| || U32At(bytes, at) != LOCAL_SIGNATURE then Missing
    else
      var n := U16At(bytes, at + 26);
      if at + 30 + n > |bytes| then Missing
      else Description(U32At(bytes, at + 14), U32At(bytes, at + 18), bytes[at + 30..at + 30 + n])
  }

  function CentralDescription(bytes: Bytes, at: nat): Description {
    if at + 46 > |bytes| || U32At(bytes, at) != CENTRAL_SIGNATURE then Missing
    else
      var n := U16At(bytes, at + 28);
      if at + 46 + n > |bytes| then Missing
      else Description(U32At(bytes, at + 16), U32At(bytes, at + 20), bytes[at + 46..at + 46 + n])
  }

  function PointsAt(bytes: Bytes, at: nat): nat {
    if at + 46 > |bytes| then 0 else U32At(bytes, at + 42)
  }

  /** Each central record points at the local header of its entry and describes it alike. */
  lemma CentralPointsToLocal(entries: seq<Entry>, i: nat)
    requires Writable(entries) && |Archive(entries)| <= MAX_ARTIFACT_BYTES && i < |entries|
    ensures PointsAt(Archive(entries), CentralStart(entries, i)) == LocalStart(entries, i)
    ensures CentralDescription(Archive(entries), CentralStart(entries, i))
         == LocalDescription(Archive(entries), LocalStart(entries, i))
         == Description(CrcNumber(entries[i].data), |entries[i].data|, NameBytes(entries[i].name))
  {
    hide AcceptedName, U16, U32, U16At, U32At, CrcNumber, NameBytes, Locals, Centrals, EndRecord, LocalHeader,
         CentralHeader;
    var zip, e, c, s := Archive(entries), entries[i], CentralStart(entries, i), LocalStart(entries, i);
    ArchiveIsIntact(entries);
    LocalInPlace(entries, i);
    assert RecordInPlace(zip, entries, i);
    LocalHeaderFields(zip, s, |e.name|, |e.data|, CrcNumber(e.data));
    CentralInArchive(entries, i);
    CentralHeaderFields(zip, c, |e.name|, |e.data|, CrcNumber(e.data), s);
  }

  lemma CentralInArchive(entries: seq<Entry>, i: nat)
    requires AllWritable(entries) && |entries| < 0x10000 && i < |entries|
    ensures var zip, e, c := Archive(entries), entries[i], CentralStart(entries, i);
            c + 46 + |e.name| <= |zip| && zip[c + 46..c + 46 + |e.name|] == NameBytes(e.name) &&
            zip[c..c + 46] == CentralHeader(|e.name|, |e.data|, CrcNumber(e.data), LocalStart(entries, i))
  {
    hide AcceptedName, CrcNumber, NameBytes, Locals, Centrals, EndRecord, CentralHeader;
    var zip, e, c := Archive(entries), entries[i], CentralStart(entries, i);
    var record := Central(e, LocalStart(entries, i));
    CentralInPlace(entries, |entries|, i);
    assert entries[..|entries|] == entries;
    assert zip[c..c + |record|] == record;
    SliceOfSlice(zip, c, |record|, 0, 46);
    SliceOfSlice(zip, c, |record|, 46, |record|);
  }

  lemma CentralHeaderFields(bytes: Bytes, at: nat, nameLength: nat, size: nat, crc: nat, offset: nat)
    requires nameLength < 0x10000 && at + 46 <= |bytes|
    requires bytes[at..at + 46] == CentralHeader(nameLength, size, crc, offset)
    ensures U32At(bytes, at) == CENTRAL_SIGNATURE
    ensures U32At(bytes, at + 16) == crc % 0x1_0000_0000 && U32At(bytes, at + 20) == size % 0x1_0000_0000
    ensures U16At(bytes, at + 28) == nameLength && U32At(bytes, at + 42) == offset % 0x1_0000_0000
  {
    hide U16, U32, U16At, U32At, CentralHeader;
    CentralHeaderSlices(nameLength, size, crc, offset);
    SliceOfSlice(bytes, at, 46, 0, 4);
    SliceOfSlice(bytes, at, 46, 16, 20);
    SliceOfSlice(bytes, at, 46, 20, 24);
    SliceOfSlice(bytes, at, 46, 28, 30);
    SliceOfSlice(bytes, at, 46, 42, 46);
    ReadsBackU32(bytes, at, CENTRAL_SIGNATURE);
    ReadsBackU32(bytes, at + 16, crc);
    ReadsBackU32(bytes, at + 20, size);
    ReadsBackU16(bytes, at + 28, nameLength);
    ReadsBackU32(bytes, at + 42, offset);
  }
}
