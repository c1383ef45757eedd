/** Reading any bytes whatever: exactly what the reader accepts, and why it refuses the rest. */
module StoredZipReading {
  import opened ByteValues
  import opened Crc32
  import opened StoredZip
  import opened Wrappers

  /** A relative path of plain characters without two dots in a row. */
  predicate SafeName(name: string) {
    && |name| > 0
    && name[0] != '/'
    && (forall c :: c in name ==>
          'A' <= c <= 'Z' || 'a' <= c <= 'z' || '0' <= c <= '9' || c in {'_', '[', ']', '.', '/', '-'})
    && (forall k :: 0 < k < |name| ==> name[k - 1] != '.' || name[k] != '.')
  }

  lemma AcceptedNameIs(name: string)
    ensures AcceptedName(name) <==> SafeName(name)
  {
    if SafeName(name) {
      forall i | 0 <= i < |name|
        ensures NameChar(name[i])
      {
        assert name[i] in name;
      }
      forall i, j | 0 <= i < |name| && 0 <= j < |name| && j == i + 1
        ensures !(name[i] == '.' && name[j] == '.')
      {
        assert name[j - 1] != '.' || name[j] != '.';
      }
    }
    if AcceptedName(name) {
      forall k | 0 < k < |name|
        ensures name[k - 1] != '.' || name[k] != '.'
      {
        var i := k - 1;
        assert !(name[i] == '.' && name[k] == '.');
      }
    }
  }

  predicate IsLocalHeader(bytes: Bytes, at: nat) { at + 4 <= |bytes| && U32At(bytes, at) == 0x04034b50 }

  /** Lengths of name, extra field and data say where a record ends. */
  function DataAt(bytes: Bytes, at: nat): nat
    requires at + 30 <= |bytes|
  {
    at + 30 + U16At(bytes, at + 26) + U16At(bytes, at + 28)
  }

  function EndAt(bytes: Bytes, at: nat): nat
    requires at + 30 <= |bytes|
  {
    DataAt(bytes, at) + U32At(bytes, at + 18)
  }

  /** A stored entry of bounded size without a data descriptor. */
  predicate IsStored(bytes: Bytes, at: nat)
    requires at + 30 <= |bytes|
  {
    U16At(bytes, at + 6) % 16 < 8 && U16At(bytes, at + 8) == 0 &&
    U32At(bytes, at + 18) == U32At(bytes, at + 22) <= 16_777_216
  }

  /** The bytes at `at` are a complete local record that describes e truly. */
  predicate RecordIs(bytes: Bytes, at: nat, e: Entry) {
    at + 30 <= |bytes| && IsLocalHeader(bytes, at) && IsStored(bytes, at) && EndAt(bytes, at) <= |bytes| &&
    SafeName(e.name) &&
    e.name == DecodedName(bytes[at + 30..at + 30 + U16At(bytes, at + 26)]) &&
    e.data == bytes[DataAt(bytes, at)..EndAt(bytes, at)] &&
    Crc(e.data) as int == U32At(bytes, at + 14)
  }

  /** From `at` on the bytes are records of these entries, and then something that is no local record. */
  predicate Follow(bytes: Bytes, at: nat, entries: seq<Entry>)
    decreases |entries|
  {
    if entries == [] then !IsLocalHeader(bytes, at)
    else RecordIs(bytes, at, entries[0]) && Follow(bytes, EndAt(bytes, at), entries[1..])
  }

  lemma BitThree(flags: nat)
    ensures flags / 8 % 2 == 0 <==> flags % 16 < 8
  {
    assert flags == 16 * (flags / 16) + flags % 16;
  }

  /** One record is read exactly if it is one, its name is new and there is room for it; otherwise the first check that
      fails says why. */
  lemma EntryIs(bytes: Bytes, at: nat, got: seq<Entry>)
    requires IsLocalHeader(bytes, at)
    ensures var r := ReadEntry(bytes, at, got);
            if |got| >= 128 then r == Err(TooManyEntries)
            else if at + 30 > |bytes| then r == Err(TruncatedHeader)
            else if !IsStored(bytes, at) then r == Err(NotBoundedStored)
            else if EndAt(bytes, at) > |bytes| then r == Err(ExceedsBounds)
            else
              var name := DecodedName(bytes[at + 30..at + 30 + U16At(bytes, at + 26)]);
              var data := bytes[DataAt(bytes, at)..EndAt(bytes, at)];
              if !SafeName(name) || exists e :: e in got && e.name == name then r == Err(UnsafeName)
              else if Crc(data) as int != U32At(bytes, at + 14) then r == Err(ChecksumInvalid)
              else r == Ok((Entry(name, data), EndAt(bytes, at)))
  {
    hide U16At, U32At, AcceptedName, SafeName, Crc, DecodedName;
    if |got| < 128 && at + 30 <= |bytes| {
      BitThree(U16At(bytes, at + 6));
      if EndAt(bytes, at) <= |bytes| {
        var name := DecodedName(bytes[at + 30..at + 30 + U16At(bytes, at + 26)]);
        AcceptedNameIs(name);
        HasNameIs(got, name);
      }
    }
  }

  lemma HasNameIs(got: seq<Entry>, name: string)
    ensures HasName(got, name) <==> exists e :: e in got && e.name == name
  {}

  lemma {:induction false} ReadingGrows(bytes: Bytes, at: nat, got: seq<Entry>)
    requires at <= |bytes| && ReadFrom(bytes, at, got).Ok?
    ensures got <= ReadFrom(bytes, at, got).value
    decreases |bytes| - at
  {
    hide ReadEntry, U32At;
    if at + 4 <= |bytes| && U32At(bytes, at) == LOCAL_SIGNATURE {
      var (e, next) := ReadEntry(bytes, at, got).value;
      ReadingGrows(bytes, next, got + [e]);
    }
  }

  /** A record says which entry it is. */
  lemma RecordIsOne(bytes: Bytes, at: nat, e: Entry, f: Entry)
    requires RecordIs(bytes, at, e) && RecordIs(bytes, at, f)
    ensures e == f
  {}

  /** What is read is the record that is there. */
  lemma ReadsRecordThere(bytes: Bytes, at: nat, got: seq<Entry>)
    requires IsLocalHeader(bytes, at) && ReadEntry(bytes, at, got).Ok?
    ensures |got| < 128 && RecordIs(bytes, at, ReadEntry(bytes, at, got).value.0)
    ensures at + 30 <= |bytes| && ReadEntry(bytes, at, got).value.1 == EndAt(bytes, at)
    ensures Distinct(got) ==> Distinct(got + [ReadEntry(bytes, at, got).value.0])
  {
    hide U16At, U32At, SafeName, Crc, DecodedName, ReadEntry, IsStored;
    EntryIs(bytes, at, got);
  }

  lemma RecordIsRead(bytes: Bytes, at: nat, got: seq<Entry>, rest: seq<Entry>)
    requires |got + rest| <= 128 && Distinct(got + rest) && rest != [] && RecordIs(bytes, at, rest[0])
    ensures ReadEntry(bytes, at, got).Ok?
  {
    hide U16At, U32At, SafeName, Crc, DecodedName, ReadEntry, IsStored;
    EntryIs(bytes, at, got);
    forall e | e in got
      ensures e.name != rest[0].name
    {
      var k :| 0 <= k < |got| && got[k] == e;
      assert (got + rest)[k] == e && (got + rest)[|got|] == rest[0];
    }
  }

  /** Which lists reading can go on to. */
  lemma {:induction false} ReadsOn(bytes: Bytes, at: nat, got: seq<Entry>, rest: seq<Entry>)
    requires at <= |bytes| && |got| <= 128 && Distinct(got)
    ensures ReadFrom(bytes, at, got) == Ok(got + rest) <==>
              Follow(bytes, at, rest) && 1 <= |got + rest| <= 128 && Distinct(got + rest)
    decreases |bytes| - at
  {
    hide U32At, ReadEntry, RecordIs, EndAt, Distinct;
    if !IsLocalHeader(bytes, at) {
      assert got + rest == got <==> rest == [];
      RecordsHaveHeaders(bytes, at, rest);
    } else if ReadEntry(bytes, at, got).Ok? {
      var (e, next) := ReadEntry(bytes, at, got).value;
      ReadsRecordThere(bytes, at, got);
      if ReadFrom(bytes, at, got) == Ok(got + rest) {
        ReadingGrows(bytes, next, got + [e]);
        assert (got + [e])[|got|] == e;
      }
      if rest != [] && rest[0] == e {
        ReadsOn(bytes, next, got + [e], rest[1..]);
        assert got + [e] + rest[1..] == got + rest;
      } else if rest != [] && RecordIs(bytes, at, rest[0]) {
        RecordIsOne(bytes, at, e, rest[0]);
      }
    } else if rest != [] && Follow(bytes, at, rest) && |got + rest| <= 128 && Distinct(got + rest) {
      RecordIsRead(bytes, at, got, rest);
    }
  }

  lemma RecordsHaveHeaders(bytes: Bytes, at: nat, rest: seq<Entry>)
    requires !IsLocalHeader(bytes, at)
    ensures Follow(bytes, at, rest) <==> rest == []
  {}

  /** The reader returns these entries exactly if the input is no larger than 16 MiB and begins with their records, one
      after the other, followed by something else; there is one at least, and 128 at most, and no two share a name. */
  lemma ReadIsExact(bytes: Bytes, entries: seq<Entry>)
    ensures ReadArchive(bytes) == Ok(entries) <==>
              |bytes| <= 16_777_216 && Follow(bytes, 0, entries) && 1 <= |entries| <= 128 &&
              forall i, j :: 0 <= i < |entries| && 0 <= j < |entries| && entries[i].name == entries[j].name ==> i == j
  {
    hide Follow, ReadFrom;
    ReadsOn(bytes, 0, [], entries);
    assert [] + entries == entries;
  }
}
