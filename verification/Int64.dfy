/** Two's-complement arithmetic of the fixed-width integers the node stores. */
module Int64 {
  const MAX: int := 0x7FFF_FFFF_FFFF_FFFF
  const MIN: int := -0x8000_0000_0000_0000
  const TWO64: int := 0x1_0000_0000_0000_0000

  predicate InRange(x: int) {
    MIN <= x <= MAX
  }

  /** int64 arithmetic: the representative of `x` modulo 2^64. */
  function Wrap(x: int): (r: int)
    ensures InRange(r)
    ensures InRange(x) ==> r == x
    ensures (r - x) % TWO64 == 0
  {
    var m := x % TWO64;
    if m > MAX then m - TWO64 else m
  }

  /** uint64 arithmetic. */
  function U64(x: int): (r: int)
    ensures 0 <= r < TWO64
    ensures 0 <= x < TWO64 ==> r == x
  {
    x % TWO64
  }

  lemma WrapUnique(x: int, r: int)
    requires InRange(r) && (r - x) % TWO64 == 0
    ensures r == Wrap(x)
  {
    var q1 := (r - x) / TWO64;
    var q2 := (Wrap(x) - x) / TWO64;
    assert r - Wrap(x) == TWO64 * (q1 - q2);
    assert -TWO64 < r - Wrap(x) < TWO64;
  }

  /** Wrapping early or late makes no difference to a sum. */
  lemma WrapSum(x: int, y: int)
    ensures Wrap(Wrap(x) + y) == Wrap(x + y)
    ensures Wrap(x + Wrap(y)) == Wrap(x + y)
  {
    var q1 := (Wrap(x) - x) / TWO64;
    assert Wrap(x) + y - (x + y) == TWO64 * q1;
    WrapCongruent(Wrap(x) + y, x + y, q1);
    var q2 := (Wrap(y) - y) / TWO64;
    WrapCongruent(x + Wrap(y), x + y, q2);
  }

  lemma WrapAdd(x: int, y: int)
    ensures Wrap(Wrap(x) + Wrap(y)) == Wrap(x + y)
  {
    WrapSum(x, Wrap(y));
    WrapSum(x, y);
  }

  lemma WrapCongruent(x: int, y: int, q: int)
    requires x - y == TWO64 * q
    ensures Wrap(x) == Wrap(y)
  {
    var q1 := (Wrap(x) - x) / TWO64;
    assert Wrap(x) - y == TWO64 * (q1 + q);
    assert (Wrap(x) - y) % TWO64 == 0 by {
      assert (TWO64 * (q1 + q)) % TWO64 == 0;
    }
    WrapUnique(y, Wrap(x));
  }

  lemma U64Sum(x: int, y: int)
    ensures U64(U64(x) + y) == U64(x + y)
  {
  }
}
