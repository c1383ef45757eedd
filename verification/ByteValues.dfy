/** Bytes and the numbers they stand for. */
module ByteValues {

  function ByteOf(n: nat): bv8
    requires n < 256
  {
    n as bv8
  }

  function Value(b: bv8): (n: nat)
    ensures n < 256
  {
    b as int
  }

  lemma Successor(b: bv8)
    requires b != 255
    ensures (b + 1) as int == b as int + 1
  {}

  /** Counting up from 0 reaches every number below 256. */
  lemma {:induction false} Reached(n: int) returns (b: bv8)
    requires 0 <= n < 256
    ensures b as int == n
    decreases n
  {
    if n == 0 {
      b := 0;
    } else {
      var a := Reached(n - 1);
      Successor(a);
      b := a + 1;
    }
  }

  lemma ValueOfByte(n: nat)
    requires n < 256
    ensures Value(ByteOf(n)) == n
  {
    var b := Reached(n);
    assert (b as int) as bv8 == b;
  }
}
