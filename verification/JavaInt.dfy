/** Java's 32-bit int arithmetic. */
module JavaInt {

  const MAX_VALUE := 0x7fff_ffff

  predicate IsInt(x: int) {
    -0x8000_0000 <= x <= MAX_VALUE
  }

  type Int = x: int | IsInt(x)

  /** The value of an int after wrapping. */
  function Wrap32(x: int): (r: int)
    ensures IsInt(r)
    ensures IsInt(x) ==> r == x
  {
    var low := x % 0x1_0000_0000;
    if low <= MAX_VALUE then low else low - 0x1_0000_0000
  }

  lemma WrapIsCongruent(x: int)
    ensures (Wrap32(x) - x) % 0x1_0000_0000 == 0
  {
  }

  lemma CongruentWraps(x: int, y: int)
    requires (x - y) % 0x1_0000_0000 == 0
    ensures Wrap32(x) == Wrap32(y)
  {
    assert x % 0x1_0000_0000 == y % 0x1_0000_0000;
  }

  /** Wrapping early or late makes no difference to a sum. */
  lemma WrapSum(x: int, y: int)
    ensures Wrap32(Wrap32(x) + y) == Wrap32(x + y)
  {
    WrapIsCongruent(x);
    CongruentWraps(Wrap32(x) + y, x + y);
  }

  lemma WrapBoth(x: int, y: int, z: int)
    requires Wrap32(y) == Wrap32(z)
    ensures Wrap32(Wrap32(x) + y) == Wrap32(x + z)
  {
    WrapSum(x, y);
    WrapSum(y, x);
    WrapSum(z, x);
  }

  /** Adding y leaves an int as it was exactly when y is a multiple of 2^32. */
  lemma WrapUnchanged(x: int, y: int)
    requires IsInt(x)
    ensures Wrap32(x + y) == x <==> y % 0x1_0000_0000 == 0
  {
    WrapIsCongruent(x + y);
    if y % 0x1_0000_0000 == 0 {
      CongruentWraps(x + y, x);
    }
  }
}
