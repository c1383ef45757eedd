/** The deterministic ZIP writer and the stored-entry reader. Record layouts are those of PKWARE
    APPNOTE.TXT sections 4.3.7 (local header), 4.3.12 (central directory) and 4.3.16 (end record). */
module StoredZip {
  import opened ByteValues
  import opened Crc32
  import opened Wrappers

  datatype Entry = Entry(name: string, data: Bytes)

  datatype WriteError = UnsafeOrDuplicateName | FieldOutOfRange

  datatype ReadError =
    | TooLarge | TooManyEntries | TruncatedHeader | NotBoundedStored | ExceedsBounds
    | UnsafeName | ChecksumInvalid | NoEntries

  const LOCAL_SIGNATURE: nat := 0x04034b50
  const CENTRAL_SIGNATURE: nat := 0x02014b50
  const END_SIGNATURE: nat := 0x06054b50
  const MAX_ARTIFACT_BYTES: nat := 16 * 1024 * 1024
  const MAX_ENTRIES: nat := 128

  // ---------------------------------------------------------------- little-endian fields

  function U16(n: nat): (r: Bytes)
    requires n < 0x10000
    ensures |r| == 2
  {
    [ByteOf(n % 256), ByteOf(n / 256)]
  }

  /** Wraps to 32 bits, as the unsigned shift in the writer does. */
  function U32(n: nat): (r: Bytes)
    ensures |r| == 4
  {
    [ByteOf(n % 256), ByteOf(n / 256 % 256), ByteOf(n / 0x10000 % 256), ByteOf(n / 0x1000000 % 256)]
  }

  function U16At(bytes: Bytes, offset: nat): (n: nat)
    requires offset + 2 <= |bytes|
    ensures n < 0x10000
  {
    Value(bytes[offset]) + 256 * Value(bytes[offset + 1])
  }

  function U32At(bytes: Bytes, offset: nat): (n: nat)
    requires offset + 4 <= |bytes|
    ensures n < 0x1_0000_0000
  {
    Value(bytes[offset]) + 0x100 * Value(bytes[offset + 1]) + 0x10000 * Value(bytes[offset + 2])
      + 0x1000000 * Value(bytes[offset + 3])
  }

  lemma ReadsBackU16(bytes: Bytes, offset: nat, n: nat)
    requires offset + 2 <= |bytes| && n < 0x10000 && bytes[offset..offset + 2] == U16(n)
    ensures U16At(bytes, offset) == n
  {
    assert bytes[offset] == U16(n)[0] && bytes[offset + 1] == U16(n)[1];
    ValueOfByte(n % 256);
    ValueOfByte(n / 256);
  }

  lemma DivideTwice(n: nat)
    ensures n / 0x10000 == n / 256 / 256
  {}

  lemma DivideThrice(n: nat)
    ensures n / 0x1000000 == n / 0x10000 / 256
  {}

  lemma FourDigits(n: nat, a: nat, b: nat, c: nat, d: nat, rest: nat)
    requires a < 256 && b < 256 && c < 256 && d < 256
    requires n == a + 0x100 * b + 0x10000 * c + 0x1000000 * d + 0x1_0000_0000 * rest
    ensures n % 0x1_0000_0000 == a + 0x100 * b + 0x10000 * c + 0x1000000 * d
  {}

  lemma Digits(n: nat)
    ensures n % 0x1_0000_0000 == n % 256 + 0x100 * (n / 256 % 256) + 0x10000 * (n / 0x10000 % 256)
                                 + 0x1000000 * (n / 0x1000000 % 256)
  {
    DivideTwice(n);
    DivideThrice(n);
    var a, b, c := n / 256, n / 0x10000, n / 0x1000000;
    FourDigits(n, n % 256, a % 256, b % 256, c % 256, c / 256);
  }

  lemma ReadsBackU32(bytes: Bytes, offset: nat, n: nat)
    requires offset + 4 <= |bytes| && bytes[offset..offset + 4] == U32(n)
    ensures U32At(bytes, offset) == n % 0x1_0000_0000
  {
    assert bytes[offset + 0] == U32(n)[0] && bytes[offset + 1] == U32(n)[1]
        && bytes[offset + 2] == U32(n)[2] && bytes[offset + 3] == U32(n)[3];
    ValueOfByte(n % 256);
    ValueOfByte(n / 256 % 256);
    ValueOfByte(n / 0x10000 % 256);
    ValueOfByte(n / 0x1000000 % 256);
    Digits(n);
  }

  // ---------------------------------------------------------------- names

  predicate NameChar(c: char) {
    'A' <= c <= 'Z' || 'a' <= c <= 'z' || '0' <= c <= '9' || c in "_[]./-"
  }

  predicate AcceptedName(name: string) {
    name != "" && name[0] != '/' &&
    (forall i :: 0 <= i < |name| ==> NameChar(name[i])) &&
    (forall i, j :: 0 <= i < |name| && 0 <= j < |name| && j == i + 1 ==> !(name[i] == '.' && name[j] == '.'))
  }

  /** A byte as the character it decodes to; bytes above ASCII never decode to a name character. */
  function CharOf(b: bv8): char {
    if Value(b) < 128 then Value(b) as char else '\U{FFFD}'
  }

  function Encoded(c: char): bv8 {
    if c as int < 128 then ByteOf(c as int) else 0
  }

  function NameBytes(name: string): (r: Bytes)
    ensures |r| == |name|
  {
    seq(|name|, i requires 0 <= i < |name| => Encoded(name[i]))
  }

  function DecodedName(bytes: Bytes): (r: string)
    ensures |r| == |bytes|
  {
    seq(|bytes|, i requires 0 <= i < |bytes| => CharOf(bytes[i]))
  }

  lemma NameRoundTrip(name: string)
    requires AcceptedName(name)
    ensures DecodedName(NameBytes(name)) == name
  {
    forall i | 0 <= i < |name|
      ensures DecodedName(NameBytes(name))[i] == name[i]
    {
      assert NameChar(name[i]);
      ValueOfByte(name[i] as int);
    }
  }

  // ---------------------------------------------------------------- the archive

  function CrcNumber(data: Bytes): (n: nat)
    ensures n < 0x1_0000_0000
  {
    Crc(data) as int
  }

  function LocalHeader(nameLength: nat, size: nat, crc: nat): (r: Bytes)
    requires nameLength < 0x10000
    ensures |r| == 30
  {
    U32(LOCAL_SIGNATURE) + U16(20) + U16(0x0800) + U16(0) + U16(0) + U16(0)
      + U32(crc) + U32(size) + U32(size) + U16(nameLength) + U16(0)
  }

  predicate WritableName(name: string) {
    AcceptedName(name) && |name| < 0x10000
  }

  function Local(e: Entry): (r: Bytes)
    requires |e.name| < 0x10000
    ensures |r| == 30 + |e.name| + |e.data|
  {
    LocalHeader(|e.name|, |e.data|, CrcNumber(e.data)) + NameBytes(e.name) + e.data
  }

  function CentralHeader(nameLength: nat, size: nat, crc: nat, offset: nat): (r: Bytes)
    requires nameLength < 0x10000
    ensures |r| == 46
  {
    U32(CENTRAL_SIGNATURE) + U16(20) + U16(20) + U16(0x0800) + U16(0) + U16(0) + U16(0)
      + U32(crc) + U32(size) + U32(size) + U16(nameLength) + U16(0) + U16(0) + U16(0) + U16(0) + U32(0) + U32(offset)
  }

  function Central(e: Entry, offset: nat): (r: Bytes)
    requires |e.name| < 0x10000
    ensures |r| == 46 + |e.name|
  {
    CentralHeader(|e.name|, |e.data|, CrcNumber(e.data), offset) + NameBytes(e.name)
  }

  predicate HasName(entries: seq<Entry>, name: string) {
    exists j :: 0 <= j < |entries| && entries[j].name == name
  }

  ghost predicate Distinct(entries: seq<Entry>) {
    forall i, j :: 0 <= i < j < |entries| ==> entries[i].name != entries[j].name
  }

  /** What the writer accepts. */
  ghost predicate Writable(entries: seq<Entry>) {
    |entries| < 0x10000 && Distinct(entries) && AllWritable(entries)
  }

  predicate AllWritable(entries: seq<Entry>) {
    forall i :: 0 <= i < |entries| ==> WritableName(entries[i].name)
  }

  function Locals(entries: seq<Entry>): Bytes
    requires AllWritable(entries)
  {
    if entries == [] then [] else
      var last := |entries| - 1;
      Locals(entries[..last]) + Local(entries[last])
  }

  function Centrals(entries: seq<Entry>): Bytes
    requires AllWritable(entries)
  {
    if entries == [] then [] else
      var last := |entries| - 1;
      Centrals(entries[..last]) + Central(entries[last], |Locals(entries[..last])|)
  }

  function EndRecord(count: nat, centralSize: nat, centralOffset: nat): (r: Bytes)
    requires count < 0x10000
    ensures |r| == 22
  {
    U32(END_SIGNATURE) + U16(0) + U16(0) + U16(count) + U16(count) + U32(centralSize) + U32(centralOffset) + U16(0)
  }

  function Directory(entries: seq<Entry>): Bytes
    requires AllWritable(entries) && |entries| < 0x10000
  {
    Centrals(entries) + EndRecord(|entries|, |Centrals(entries)|, |Locals(entries)|)
  }

  function Archive(entries: seq<Entry>): Bytes
    requires AllWritable(entries) && |entries| < 0x10000
  {
    Locals(entries) + Directory(entries)
  }

  // ---------------------------------------------------------------- the writer

  /** Everything before position i is fine, and position i is where `error` comes from; the position
      after the last entry stands for the end record, whose entry count has 16 bits. */
  ghost predicate RejectedAt(entries: seq<Entry>, i: nat, error: WriteError) {
    i <= |entries| && AllWritable(entries[..i]) && Distinct(entries[..i]) &&
    if i == |entries| then error == FieldOutOfRange && |entries| >= 0x10000
    else if !AcceptedName(entries[i].name) || HasName(entries[..i], entries[i].name) then
      error == UnsafeOrDuplicateName
    else error == FieldOutOfRange && |entries[i].name| >= 0x10000
  }

  method CrcField(table: array<bv32>, data: Bytes) returns (crc: nat)
    requires IsCrcTable(table[..])
    ensures crc == CrcNumber(data)
  {
    var bits := ComputeCrc(table, data);
    crc := bits as int;
  }

  method CreateDeterministicZip(table: array<bv32>, entries: seq<Entry>) returns (result: Result<Bytes, WriteError>)
    requires IsCrcTable(table[..])
    ensures result.Ok? ==> Writable(entries) && result.value == Archive(entries)
    ensures result.Err? ==> !Writable(entries) && exists i :: RejectedAt(entries, i, result.error)
  {
    hide IsCrcTable, CrcNumber, LocalHeader, CentralHeader, NameBytes, AcceptedName, EndRecord;
    var names: set<string> := {};
    var localParts: Bytes := [];
    var centralParts: Bytes := [];
    var offset := 0;
    var i := 0;
    while i < |entries|
      invariant 0 <= i <= |entries|
      invariant AllWritable(entries[..i]) && Distinct(entries[..i])
      invariant forall n :: n in names <==> HasName(entries[..i], n)
      invariant localParts == Locals(entries[..i]) && centralParts == Centrals(entries[..i])
      invariant offset == |localParts|
    {
      var entry := entries[i];
      if !AcceptedName(entry.name) || entry.name in names {
        assert RejectedAt(entries, i, UnsafeOrDuplicateName);
        return Err(UnsafeOrDuplicateName);
      }
      names := names + {entry.name};
      var crc := CrcField(table, entry.data);
      if |entry.name| >= 0x10000 {
        assert RejectedAt(entries, i, FieldOutOfRange);
        return Err(FieldOutOfRange);
      }
      var local := LocalHeader(|entry.name|, |entry.data|, crc) + NameBytes(entry.name) + entry.data;
      localParts := localParts + local;
      centralParts := centralParts
        + (CentralHeader(|entry.name|, |entry.data|, crc, offset) + NameBytes(entry.name));
      assert entries[..i + 1][..i] == entries[..i] && entries[..i + 1][i] == entry;
      offset := offset + |local|;
      i := i + 1;
    }
    assert entries[..i] == entries;
    if |entries| >= 0x10000 {
      assert RejectedAt(entries, i, FieldOutOfRange);
      return Err(FieldOutOfRange);
    }
    result := Ok(localParts + (centralParts + EndRecord(|entries|, |centralParts|, offset)));
  }

  // ---------------------------------------------------------------- the reader

  /** One entry at `offset`, given the entries read so far. */
  function ReadEntry(bytes: Bytes, offset: nat, got: seq<Entry>): (r: Result<(Entry, nat), ReadError>)
    requires offset + 4 <= |bytes|
    ensures r.Ok? ==> offset + 30 <= r.value.1 <= |bytes|
  {
    if |got| >= MAX_ENTRIES then Err(TooManyEntries)
    else if offset + 30 > |bytes| then Err(TruncatedHeader)
    else
      var flags := U16At(bytes, offset + 6);
      var compression := U16At(bytes, offset + 8);
      var declaredCrc := U32At(bytes, offset + 14);
      var compressed := U32At(bytes, offset + 18);
      var uncompressed := U32At(bytes, offset + 22);
      var nameLength := U16At(bytes, offset + 26);
      var extraLength := U16At(bytes, offset + 28);
      if flags / 8 % 2 != 0 || compression != 0 || compressed != uncompressed || uncompressed > MAX_ARTIFACT_BYTES
      then Err(NotBoundedStored)
      else
        var nameStart := offset + 30;
        var dataStart := nameStart + nameLength + extraLength;
        var dataEnd := dataStart + compressed;
        if dataEnd > |bytes| then Err(ExceedsBounds)
        else
          var name := DecodedName(bytes[nameStart..nameStart + nameLength]);
          if !AcceptedName(name) || HasName(got, name) then Err(UnsafeName)
          else
            var data := bytes[dataStart..dataEnd];
            if CrcNumber(data) != declaredCrc then Err(ChecksumInvalid)
            else Ok((Entry(name, data), dataEnd))
  }

  function ReadFrom(bytes: Bytes, offset: nat, got: seq<Entry>): Result<seq<Entry>, ReadError>
    requires offset <= |bytes|
    decreases |bytes| - offset
  {
    if offset + 4 <= |bytes| && U32At(bytes, offset) == LOCAL_SIGNATURE then
      match ReadEntry(bytes, offset, got)
      case Err(e) => Err(e)
      case Ok((entry, next)) => ReadFrom(bytes, next, got + [entry])
    else if |got| < 1 then Err(NoEntries)
    else Ok(got)
  }

  function ReadArchive(bytes: Bytes): Result<seq<Entry>, ReadError> {
    if |bytes| > MAX_ARTIFACT_BYTES then Err(TooLarge) else ReadFrom(bytes, 0, [])
  }

  method ReadNextEntry(table: array<bv32>, bytes: Bytes, offset: nat, entries: seq<Entry>)
    returns (result: Result<(Entry, nat), ReadError>)
    requires IsCrcTable(table[..]) && offset + 4 <= |bytes|
    ensures result == ReadEntry(bytes, offset, entries)
  {
    hide IsCrcTable, CrcNumber, U16At, U32At, AcceptedName, DecodedName, HasName;
    if |entries| >= MAX_ENTRIES { return Err(TooManyEntries); }
    if offset + 30 > |bytes| { return Err(TruncatedHeader); }
    var compressed, uncompressed := U32At(bytes, offset + 18), U32At(bytes, offset + 22);
    if U16At(bytes, offset + 6) / 8 % 2 != 0 || U16At(bytes, offset + 8) != 0
       || compressed != uncompressed || uncompressed > MAX_ARTIFACT_BYTES {
      return Err(NotBoundedStored);
    }
    var nameStart := offset + 30;
    var nameLength := U16At(bytes, offset + 26);
    var dataStart := nameStart + nameLength + U16At(bytes, offset + 28);
    var dataEnd := dataStart + compressed;
    if dataEnd > |bytes| { return Err(ExceedsBounds); }
    var name := DecodedName(bytes[nameStart..nameStart + nameLength]);
    if !AcceptedName(name) || HasName(entries, name) { return Err(UnsafeName); }
    var data := bytes[dataStart..dataEnd];
    var crc := CrcField(table, data);
    if crc != U32At(bytes, offset + 14) { return Err(ChecksumInvalid); }
    result := Ok((Entry(name, data), dataEnd));
  }

  method ReadStoredZip(table: array<bv32>, bytes: Bytes) returns (result: Result<seq<Entry>, ReadError>)
    requires IsCrcTable(table[..])
    ensures result == ReadArchive(bytes)
  {
    hide IsCrcTable, ReadEntry, U32At;
    if |bytes| > MAX_ARTIFACT_BYTES { return Err(TooLarge); }
    var entries: seq<Entry> := [];
    var offset := 0;
    while offset + 4 <= |bytes| && U32At(bytes, offset) == LOCAL_SIGNATURE
      invariant 0 <= offset <= |bytes|
      invariant ReadFrom(bytes, offset, entries) == ReadFrom(bytes, 0, [])
      decreases |bytes| - offset
    {
      var next := ReadNextEntry(table, bytes, offset, entries);
      if next.Err? { return Err(next.error); }
      entries := entries + [next.value.0];
      offset := next.value.1;
    }
    if |entries| < 1 { return Err(NoEntries); }
    result := Ok(entries);
  }
}
