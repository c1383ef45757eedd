/** Repeated application of a function, kept generic so that the proofs about the CRC register
    can be done without looking inside 32-bit words. */
module Iteration {

  function Iterate<T>(f: T -> T, x: T, n: nat): T
    decreases n
  {
    if n == 0 then x else Iterate(f, f(x), n - 1)
  }

  /** Feeds a sequence of bits, first bit first, into a register. */
  function Feed<T>(step: (T, bool) -> T, register: T, bits: seq<bool>): T
    decreases |bits|
  {
    if bits == [] then register else Feed(step, step(register, bits[0]), bits[1..])
  }

  /** The n least significant bits of x, least significant bit first. */
  function LowBits<T>(lowest: T -> bool, half: T -> T, x: T, n: nat): seq<bool>
    decreases n
  {
    if n == 0 then [] else [lowest(x)] + LowBits(lowest, half, half(x), n - 1)
  }

  ghost predicate Homomorphic<T(!new)>(f: T -> T, op: (T, T) -> T) {
    forall x, y :: f(op(x, y)) == op(f(x), f(y))
  }

  ghost predicate Associative<T(!new)>(op: (T, T) -> T) {
    forall x, y, z :: op(op(x, y), z) == op(x, op(y, z))
  }

  ghost predicate Injective<T(!new)>(f: T -> T) {
    forall x, y :: f(x) == f(y) ==> x == y
  }

  lemma {:induction false} IterateSum<T>(f: T -> T, x: T, m: nat, n: nat)
    ensures Iterate(f, x, m + n) == Iterate(f, Iterate(f, x, m), n)
    decreases m
  {
    if m > 0 {
      IterateSum(f, f(x), m - 1, n);
    }
  }

  lemma Iterate8<T>(f: T -> T, x: T)
    ensures Iterate(f, x, 8) == f(f(f(f(f(f(f(f(x))))))))
  {
    var y := f(f(f(f(x))));
    assert Iterate(f, x, 8) == Iterate(f, f(x), 7) == Iterate(f, f(f(x)), 6);
    assert Iterate(f, f(f(x)), 6) == Iterate(f, f(f(f(x))), 5) == Iterate(f, y, 4);
    assert Iterate(f, y, 4) == Iterate(f, f(y), 3) == Iterate(f, f(f(y)), 2) == f(f(f(f(y))));
  }

  lemma {:induction false} IterateDistributes<T(!new)>(f: T -> T, op: (T, T) -> T, x: T, y: T, n: nat)
    requires Homomorphic(f, op)
    ensures Iterate(f, op(x, y), n) == op(Iterate(f, x, n), Iterate(f, y, n))
    decreases n
  {
    if n > 0 {
      IterateDistributes(f, op, f(x), f(y), n - 1);
    }
  }

  lemma {:induction false} IterateCancels<T(!new)>(f: T -> T, x: T, y: T, n: nat)
    requires Injective(f) && Iterate(f, x, n) == Iterate(f, y, n)
    ensures x == y
    decreases n
  {
    if n > 0 {
      IterateCancels(f, f(x), f(y), n - 1);
    }
  }

  lemma {:induction false} FeedConcat<T>(step: (T, bool) -> T, register: T, a: seq<bool>, b: seq<bool>)
    ensures Feed(step, register, a + b) == Feed(step, Feed(step, register, a), b)
    decreases |a|
  {
    if a == [] {
      assert a + b == b;
    } else {
      assert (a + b)[1..] == a[1..] + b;
      FeedConcat(step, step(register, a[0]), a[1..], b);
    }
  }

  /** Mixing the bits of x in one at a time is mixing x in at once and then stepping. */
  lemma {:induction false} FeedIsIterate<T(!new)>(
      f: T -> T, op: (T, T) -> T, step: (T, bool) -> T, lowest: T -> bool, half: T -> T, c: T, x: T, n: nat)
    requires forall c, x :: f(op(c, x)) == op(step(c, lowest(x)), half(x))
    ensures Iterate(f, op(c, x), n) == op(Feed(step, c, LowBits(lowest, half, x, n)), Iterate(half, x, n))
    decreases n
  {
    if n > 0 {
      FeedIsIterate(f, op, step, lowest, half, step(c, lowest(x)), half(x), n - 1);
      assert ([lowest(x)] + LowBits(lowest, half, half(x), n - 1))[1..] == LowBits(lowest, half, half(x), n - 1);
    }
  }

  /** A value that waits k steps above the one being consumed moves down unchanged. */
  lemma WaitingValue<T(!new)>(f: T -> T, op: (T, T) -> T, up: T -> T, c: T, low: T, rest: T, k: nat, n: nat)
    requires Homomorphic(f, op) && Associative(op)
    requires Iterate(f, up(rest), k) == rest
    ensures Iterate(f, op(Iterate(f, op(c, low), k), rest), n) == Iterate(f, op(c, op(low, up(rest))), k + n)
  {
    IterateDistributes(f, op, op(c, low), up(rest), k);
    IterateSum(f, op(op(c, low), up(rest)), k, n);
  }
}
