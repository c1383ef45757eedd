/** CRC-32 as in section 8 of RFC 1952: the table-driven loop of the ZIP writer and of the
    stored-ZIP reader, proved equal to the bit-serial register it stands for. */
module Crc32 {
  import opened Iteration

  type Bytes = seq<bv8>

  // ---------------------------------------------------------------- one register step

  /** One division step of the reflected polynomial. */
  function BitStep(value: bv32): bv32 {
    if value & 1 == 1 then 0xedb88320 ^ (value >> 1) else value >> 1
  }

  /** One message bit shifted into the register: the reference definition. */
  function SerialStep(crc: bv32, bit: bool): bv32 {
    if (crc & 1 == 1) != bit then 0xedb88320 ^ (crc >> 1) else crc >> 1
  }

  function Xor(a: bv32, b: bv32): bv32 { a ^ b }

  function Half(x: bv32): bv32 { x >> 1 }

  predicate Lowest(x: bv32) { x & 1 == 1 }

  const ALL_ONES: bv32 := 0xffffffff

  function Complement(crc: bv32): bv32 { crc ^ 0xffffffff }

  function BitSteps(value: bv32, n: nat): bv32 {
    Iterate(BitStep, value, n)
  }

  function ByteBits(b: bv8): seq<bool> {
    LowBits(Lowest, Half, b as bv32, 8)
  }

  /** The bits of a message in transmission order. */
  function MessageBits(bytes: Bytes): seq<bool> {
    if bytes == [] then [] else ByteBits(bytes[0]) + MessageBits(bytes[1..])
  }

  /** The reference: every bit of the message goes through the register, one at a time. */
  function SerialCrc(bytes: Bytes): bv32 {
    Complement(Feed(SerialStep, ALL_ONES, MessageBits(bytes)))
  }

  // ---------------------------------------------------------------- the byte-wise form

  function ByteStep(crc: bv32, b: bv8): bv32 {
    BitSteps(Xor(crc, b as bv32), 8)
  }

  function Update(crc: bv32, bytes: Bytes): bv32
    decreases |bytes|
  {
    if bytes == [] then crc else Update(ByteStep(crc, bytes[0]), bytes[1..])
  }

  function Crc(bytes: Bytes): bv32 {
    Complement(Update(ALL_ONES, bytes))
  }

  // ---------------------------------------------------------------- algebra of the register

  lemma XorBits(a: bv32, b: bv32)
    ensures (a ^ b) >> 1 == (a >> 1) ^ (b >> 1)
    ensures (a ^ b) & 1 == (a & 1) ^ (b & 1)
    ensures a & 1 == 0 || a & 1 == 1
    ensures b & 1 == 0 || b & 1 == 1
  {}

  lemma XorMoves(p: bv32, a: bv32, b: bv32)
    ensures (p ^ a) ^ (p ^ b) == a ^ b
    ensures (p ^ a) ^ b == p ^ (a ^ b)
    ensures a ^ (p ^ b) == p ^ (a ^ b)
  {}

  lemma BitStepXor(a: bv32, b: bv32)
    ensures BitStep(Xor(a, b)) == Xor(BitStep(a), BitStep(b))
  {
    XorBits(a, b);
    XorMoves(0xedb88320, a >> 1, b >> 1);
  }

  /** The top bit of the result tells which branch was taken. */
  lemma BitStepCancels(a: bv32, b: bv32)
    requires BitStep(a) == BitStep(b)
    ensures a == b
  {}

  lemma SerialStepMixes(crc: bv32, x: bv32)
    ensures BitStep(Xor(crc, x)) == Xor(SerialStep(crc, Lowest(x)), Half(x))
  {
    XorBits(crc, x);
    XorMoves(0xedb88320, crc >> 1, x >> 1);
  }

  lemma BitStepsXor(a: bv32, b: bv32, n: nat)
    ensures BitSteps(Xor(a, b), n) == Xor(BitSteps(a, n), BitSteps(b, n))
  {
    forall x, y ensures BitStep(Xor(x, y)) == Xor(BitStep(x), BitStep(y)) {
      BitStepXor(x, y);
    }
    IterateDistributes(BitStep, Xor, a, b, n);
  }

  /** Stepping loses no information, so a register can be run backwards. */
  lemma BitStepsInjective(a: bv32, b: bv32, n: nat)
    requires BitSteps(a, n) == BitSteps(b, n)
    ensures a == b
  {
    forall x, y ensures BitStep(x) == BitStep(y) ==> x == y {
      if BitStep(x) == BitStep(y) {
        BitStepCancels(x, y);
      }
    }
    IterateCancels(BitStep, a, b, n);
  }

  lemma EvenStep(x: bv32)
    requires x & 1 == 0
    ensures BitStep(x) == x >> 1
  {}

  /** Eight steps over eight zero bits only shift. */
  lemma ZeroByteSteps(x: bv32)
    requires x & 0xff == 0
    ensures BitSteps(x, 8) == x >> 8
  {
    Iterate8(BitStep, x);
    EvenStep(x);
    EvenStep(x >> 1);
    EvenStep((x >> 1) >> 1);
    EvenStep(((x >> 1) >> 1) >> 1);
    EvenStep((((x >> 1) >> 1) >> 1) >> 1);
    EvenStep(((((x >> 1) >> 1) >> 1) >> 1) >> 1);
    EvenStep((((((x >> 1) >> 1) >> 1) >> 1) >> 1) >> 1);
    EvenStep(((((((x >> 1) >> 1) >> 1) >> 1) >> 1) >> 1) >> 1);
  }

  lemma HalvedByteVanishes(b: bv8)
    ensures Iterate(Half, b as bv32, 8) == 0
  {
    Iterate8(Half, b as bv32);
  }

  // ---------------------------------------------------------------- serial = byte-wise

  lemma ByteStepIsSerial(crc: bv32, b: bv8)
    ensures ByteStep(crc, b) == Feed(SerialStep, crc, ByteBits(b))
  {
    forall c, x ensures BitStep(Xor(c, x)) == Xor(SerialStep(c, Lowest(x)), Half(x)) {
      SerialStepMixes(c, x);
    }
    FeedIsIterate(BitStep, Xor, SerialStep, Lowest, Half, crc, b as bv32, 8);
    HalvedByteVanishes(b);
  }

  lemma {:induction false} UpdateIsSerial(crc: bv32, bytes: Bytes)
    ensures Update(crc, bytes) == Feed(SerialStep, crc, MessageBits(bytes))
    decreases |bytes|
  {
    if bytes != [] {
      ByteStepIsSerial(crc, bytes[0]);
      FeedConcat(SerialStep, crc, ByteBits(bytes[0]), MessageBits(bytes[1..]));
      UpdateIsSerial(ByteStep(crc, bytes[0]), bytes[1..]);
    }
  }

  /** The CRC both files compute is the bit-serial one. */
  lemma CrcIsSerial(bytes: Bytes)
    ensures Crc(bytes) == SerialCrc(bytes)
  {
    UpdateIsSerial(ALL_ONES, bytes);
  }

  lemma {:induction false} UpdateConcat(crc: bv32, a: Bytes, b: Bytes)
    ensures Update(crc, a + b) == Update(Update(crc, a), b)
    decreases |a|
  {
    if a == [] {
      assert a + b == b;
    } else {
      assert (a + b)[1..] == a[1..] + b;
      UpdateConcat(ByteStep(crc, a[0]), a[1..], b);
    }
  }

  // ---------------------------------------------------------------- the table loop

  /** What entry `index` of the table must hold. */
  ghost predicate IsCrcTable(table: seq<bv32>) {
    |table| == 256 && forall i :: 0 <= i < 256 ==> table[i] == BitSteps((i as bv8) as bv32, 8)
  }

  function LowByte(x: bv32): bv8 {
    (x & 0xff) as bv8
  }

  /** The table position the loop looks up. */
  function Index(crc: bv32, b: bv8): (i: nat)
    ensures i < 256
  {
    LowByte(crc ^ (b as bv32)) as int
  }

  lemma LowByteWidens(x: bv32)
    ensures LowByte(x) as bv32 == x & 0xff
  {}

  function LowPart(x: bv32): bv32 { x & 0xff }

  function HighPart(x: bv32): bv32 { x & 0xffffff00 }

  lemma SplitLowByte(crc: bv32, b: bv8)
    ensures var y := Xor(crc, b as bv32); y == Xor(LowPart(y), HighPart(y))
    ensures HighPart(Xor(crc, b as bv32)) >> 8 == crc >> 8
    ensures HighPart(Xor(crc, b as bv32)) & 0xff == 0
  {}

  lemma StepSplits(crc: bv32, b: bv8)
    ensures ByteStep(crc, b) == Xor(BitSteps(LowPart(Xor(crc, b as bv32)), 8), crc >> 8)
  {
    var y := Xor(crc, b as bv32);
    SplitLowByte(crc, b);
    ZeroByteSteps(HighPart(y));
    hide LowPart, HighPart, Xor, BitSteps;
    BitStepsXor(LowPart(y), HighPart(y), 8);
  }

  lemma TableEntry(table: seq<bv32>, low: bv8)
    requires IsCrcTable(table)
    ensures 0 <= low as int < 256 && table[low as int] == BitSteps(low as bv32, 8)
  {
    ByteOfInt(low);
    var i := low as int;
    assert table[i] == BitSteps((i as bv8) as bv32, 8);
  }

  lemma ByteOfInt(low: bv8)
    ensures 0 <= low as int < 256 && (low as int) as bv8 == low
  {}

  /** One table look-up does the work of eight bit steps. */
  lemma TableStep(table: seq<bv32>, crc: bv32, b: bv8)
    requires IsCrcTable(table)
    ensures Xor(table[Index(crc, b)], crc >> 8) == ByteStep(crc, b)
  {
    TableEntry(table, LowByte(crc ^ (b as bv32)));
    LowByteWidens(Xor(crc, b as bv32));
    StepSplits(crc, b);
  }

  method TableValue(index: bv8) returns (value: bv32)
    ensures value == BitSteps(index as bv32, 8)
  {
    value := index as bv32;
    var bit := 0;
    while bit < 8
      invariant 0 <= bit <= 8
      invariant BitSteps(value, 8 - bit) == BitSteps(index as bv32, 8)
    {
      value := if value & 1 != 0 then 0xedb88320 ^ (value >> 1) else value >> 1;
      bit := bit + 1;
    }
  }

  method BuildTable() returns (table: array<bv32>)
    ensures fresh(table) && IsCrcTable(table[..])
  {
    table := new bv32[256];
    var index := 0;
    while index < 256
      invariant 0 <= index <= 256
      invariant forall i :: 0 <= i < index ==> table[i] == BitSteps((i as bv8) as bv32, 8)
    {
      table[index] := TableValue(index as bv8);
      index := index + 1;
    }
  }

  method ComputeCrc(table: array<bv32>, bytes: Bytes) returns (result: bv32)
    requires IsCrcTable(table[..])
    ensures result == Crc(bytes) == SerialCrc(bytes)
  {
    var crc := ALL_ONES;
    var i := 0;
    while i < |bytes|
      invariant 0 <= i <= |bytes|
      invariant Update(crc, bytes[i..]) == Update(ALL_ONES, bytes)
    {
      TableStep(table[..], crc, bytes[i]);
      crc := Xor(table[Index(crc, bytes[i])], crc >> 8);
      assert bytes[i..][1..] == bytes[i + 1..];
      i := i + 1;
    }
    CrcIsSerial(bytes);
    result := Complement(crc);
  }

  // ---------------------------------------------------------------- burst detection

  lemma ByteStepInjective(a: bv32, b: bv32, byte: bv8)
    requires ByteStep(a, byte) == ByteStep(b, byte)
    ensures a == b
  {
    BitStepsInjective(Xor(a, byte as bv32), Xor(b, byte as bv32), 8);
  }

  /** The same suffix never brings two different registers back together. */
  lemma {:induction false} UpdateInjective(a: bv32, b: bv32, suffix: Bytes)
    requires Update(a, suffix) == Update(b, suffix)
    ensures a == b
    decreases |suffix|
  {
    if suffix != [] {
      UpdateInjective(ByteStep(a, suffix[0]), ByteStep(b, suffix[0]), suffix[1..]);
      ByteStepInjective(a, b, suffix[0]);
    }
  }

  function ShiftUp(x: bv32): bv32 { x << 8 }

  lemma XorAssociates(a: bv32, b: bv32, c: bv32)
    ensures Xor(Xor(a, b), c) == Xor(a, Xor(b, c))
  {}

  lemma ShiftUpReturns(x: bv32)
    requires (x << 8) >> 8 == x
    ensures BitSteps(ShiftUp(x), 8) == x
  {
    ShiftedLowByte(x);
    ZeroByteSteps(x << 8);
  }

  lemma ShiftedLowByte(x: bv32)
    ensures (x << 8) & 0xff == 0
  {}

  /** Four bytes as one register value, the first byte lowest. */
  function Word(b0: bv8, b1: bv8, b2: bv8, b3: bv8): bv32 {
    Xor(b0 as bv32, ShiftUp(Xor(b1 as bv32, ShiftUp(Xor(b2 as bv32, ShiftUp(b3 as bv32))))))
  }

  lemma WordFits(b1: bv8, b2: bv8, b3: bv8)
    ensures ((b3 as bv32) << 8) >> 8 == b3 as bv32
    ensures var r := Xor(b2 as bv32, ShiftUp(b3 as bv32)); (r << 8) >> 8 == r
    ensures var r := Xor(b1 as bv32, ShiftUp(Xor(b2 as bv32, ShiftUp(b3 as bv32)))); (r << 8) >> 8 == r
  {}

  lemma WordInjective(c: bv32, a0: bv8, a1: bv8, a2: bv8, a3: bv8, b0: bv8, b1: bv8, b2: bv8, b3: bv8)
    requires Xor(c, Word(a0, a1, a2, a3)) == Xor(c, Word(b0, b1, b2, b3))
    ensures a0 == b0 && a1 == b1 && a2 == b2 && a3 == b3
  {}

  lemma RegisterAlgebra()
    ensures Homomorphic(BitStep, Xor) && Associative(Xor)
  {
    forall x, y ensures BitStep(Xor(x, y)) == Xor(BitStep(x), BitStep(y)) {
      BitStepXor(x, y);
    }
    forall x, y, z ensures Xor(Xor(x, y), z) == Xor(x, Xor(y, z)) {
      XorAssociates(x, y, z);
    }
  }

  /** Bytes that wait above the one being consumed move down unchanged. */
  lemma WaitingBytes(c: bv32, low: bv32, rest: bv32, word: bv32, n: nat)
    requires BitSteps(ShiftUp(rest), 8) == rest && word == Xor(low, ShiftUp(rest))
    ensures BitSteps(Xor(BitSteps(Xor(c, low), 8), rest), n) == BitSteps(Xor(c, word), 8 + n)
  {
    RegisterAlgebra();
    WaitingValue(BitStep, Xor, ShiftUp, c, low, rest, 8, n);
  }

  lemma FourWordSteps(c: bv32, b0: bv32, b1: bv32, b2: bv32, b3: bv32, w2: bv32, w1: bv32, w0: bv32)
    requires w2 == Xor(b2, ShiftUp(b3)) && w1 == Xor(b1, ShiftUp(w2)) && w0 == Xor(b0, ShiftUp(w1))
    requires BitSteps(ShiftUp(b3), 8) == b3 && BitSteps(ShiftUp(w2), 8) == w2 && BitSteps(ShiftUp(w1), 8) == w1
    ensures BitSteps(Xor(BitSteps(Xor(BitSteps(Xor(BitSteps(Xor(c, b0), 8), b1), 8), b2), 8), b3), 8)
         == BitSteps(Xor(c, w0), 32)
  {
    var c1 := BitSteps(Xor(c, b0), 8);
    var c2 := BitSteps(Xor(c1, b1), 8);
    WaitingBytes(c2, b2, b3, w2, 8);
    WaitingBytes(c1, b1, w2, w1, 16);
    WaitingBytes(c, b0, w1, w0, 24);
  }

  /** Four bytes can be mixed in at once. */
  lemma FourByteSteps(c: bv32, b0: bv8, b1: bv8, b2: bv8, b3: bv8)
    ensures ByteStep(ByteStep(ByteStep(ByteStep(c, b0), b1), b2), b3) == BitSteps(Xor(c, Word(b0, b1, b2, b3)), 32)
  {
    WordFits(b1, b2, b3);
    var w2 := Xor(b2 as bv32, ShiftUp(b3 as bv32));
    var w1 := Xor(b1 as bv32, ShiftUp(w2));
    ShiftUpReturns(b3 as bv32);
    ShiftUpReturns(w2);
    ShiftUpReturns(w1);
    FourWordSteps(c, b0 as bv32, b1 as bv32, b2 as bv32, b3 as bv32, w2, w1, Word(b0, b1, b2, b3));
  }

  lemma FourStepsInjective(c: bv32, a0: bv8, a1: bv8, a2: bv8, a3: bv8, b0: bv8, b1: bv8, b2: bv8, b3: bv8)
    requires ByteStep(ByteStep(ByteStep(ByteStep(c, a0), a1), a2), a3)
          == ByteStep(ByteStep(ByteStep(ByteStep(c, b0), b1), b2), b3)
    ensures a0 == b0 && a1 == b1 && a2 == b2 && a3 == b3
  {
    FourByteSteps(c, a0, a1, a2, a3);
    FourByteSteps(c, b0, b1, b2, b3);
    BitStepsInjective(Xor(c, Word(a0, a1, a2, a3)), Xor(c, Word(b0, b1, b2, b3)), 32);
    WordInjective(c, a0, a1, a2, a3, b0, b1, b2, b3);
  }

  lemma UpdateFour(c: bv32, w: Bytes)
    requires |w| == 4
    ensures Update(c, w) == ByteStep(ByteStep(ByteStep(ByteStep(c, w[0]), w[1]), w[2]), w[3])
  {
    var c1 := ByteStep(c, w[0]);
    var c2 := ByteStep(c1, w[1]);
    assert w[1..][0] == w[1] && w[1..][1..] == w[2..] && w[2..][1..] == w[3..] && w[3..][1..] == [];
    assert Update(c, w) == Update(c2, w[2..]);
    assert Update(c2, w[2..]) == Update(ByteStep(ByteStep(c2, w[2]), w[3]), []);
  }

  lemma FourBytesInjective(c: bv32, w: Bytes, v: Bytes)
    requires |w| == |v| == 4 && Update(c, w) == Update(c, v)
    ensures w == v
  {
    UpdateFour(c, w);
    UpdateFour(c, v);
    FourStepsInjective(c, w[0], w[1], w[2], w[3], v[0], v[1], v[2], v[3]);
  }

  lemma ShortWindowInjective(c: bv32, w: Bytes, v: Bytes)
    requires |w| == |v| <= 4 && Update(c, w) == Update(c, v)
    ensures w == v
  {
    var zeros := seq(4 - |w|, _ => 0 as bv8);
    UpdateConcat(c, w, zeros);
    UpdateConcat(c, v, zeros);
    FourBytesInjective(c, w + zeros, v + zeros);
    assert w == (w + zeros)[..|w|] && v == (v + zeros)[..|v|];
  }

  lemma ComplementInjective(a: bv32, b: bv32)
    requires Complement(a) == Complement(b)
    ensures a == b
  {}

  /** The two byte strings have the same length and differ, but only inside bytes [at, at + 4). */
  ghost predicate DifferWithinFour(a: Bytes, b: Bytes, at: nat) {
    |a| == |b| && a != b && at <= |a| &&
    forall k :: 0 <= k < |a| && !(at <= k < at + 4) ==> a[k] == b[k]
  }

  /** Different windows between the same prefix and suffix give different CRCs. */
  lemma WindowChangesCrc(prefix: Bytes, w: Bytes, v: Bytes, suffix: Bytes)
    requires |w| == |v| <= 4 && w != v
    ensures Crc(prefix + (w + suffix)) != Crc(prefix + (v + suffix))
  {
    var start := Update(ALL_ONES, prefix);
    UpdateConcat(ALL_ONES, prefix, w + suffix);
    UpdateConcat(ALL_ONES, prefix, v + suffix);
    UpdateConcat(start, w, suffix);
    UpdateConcat(start, v, suffix);
    if Crc(prefix + (w + suffix)) == Crc(prefix + (v + suffix)) {
      ComplementInjective(Update(Update(start, w), suffix), Update(Update(start, v), suffix));
      UpdateInjective(Update(start, w), Update(start, v), suffix);
      ShortWindowInjective(start, w, v);
    }
  }

  /** Damage confined to four consecutive bytes always changes the CRC. */
  lemma BurstChangesCrc(a: Bytes, b: Bytes, at: nat)
    requires DifferWithinFour(a, b, at)
    ensures Crc(a) != Crc(b)
  {
    var end := if at + 4 <= |a| then at + 4 else |a|;
    assert a[..at] == b[..at] && a[end..] == b[end..];
    assert a == a[..at] + (a[at..end] + a[end..]) && b == b[..at] + (b[at..end] + b[end..]);
    WindowChangesCrc(a[..at], a[at..end], b[at..end], a[end..]);
  }

  // ---------------------------------------------------------------- the published check value

  function Eight(v: bv32): bv32 {
    BitStep(BitStep(BitStep(BitStep(BitStep(BitStep(BitStep(BitStep(v))))))))
  }

  lemma EightSteps(v: bv32)
    ensures BitSteps(v, 8) == Eight(v)
  {
    var f := BitStep;
    assert Iterate(f, v, 8) == Iterate(f, f(v), 7);
  }

  lemma OneByte(crc: bv32, b: bv8, next: bv32)
    requires Eight(crc ^ (b as bv32)) == next
    ensures ByteStep(crc, b) == next
  {
    EightSteps(Xor(crc, b as bv32));
  }

  /** The nine ASCII digits from 1 to 9 have the checksum 0xcbf43926, and no bytes have the checksum 0. */
  lemma CheckValue()
    ensures Crc([0x31, 0x32, 0x33, 0x34, 0x35, 0x36, 0x37, 0x38, 0x39]) == 0xcbf43926
    ensures Crc([]) == 0
  {
    OneByte(0xffffffff, 0x31, 0x7c231048);
    OneByte(0x7c231048, 0x32, 0xb0acbb32);
    OneByte(0xb0acbb32, 0x33, 0x77b79c2d);
    OneByte(0x77b79c2d, 0x34, 0x641c1f5c);
    OneByte(0x641c1f5c, 0x35, 0x340ac5e3);
    OneByte(0x340ac5e3, 0x36, 0xf68d2c9e);
    OneByte(0xf68d2c9e, 0x37, 0xaffc9660);
    OneByte(0xaffc9660, 0x38, 0x651f2550);
    OneByte(0x651f2550, 0x39, 0x340bc6d9);
  }
}
