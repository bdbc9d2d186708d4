/** The two pieces of Kotlin semantics the app's core leans on: nullable
    values with the elvis operator, and the 32-bit `Int` whose `+` wraps
    around in two's complement. */
module Kotlin {

  /** A Kotlin nullable value `T?`. */
  datatype Nullable<+T> = Null | NonNull(value: T) {

    /** The elvis operator `this ?: default`. */
    function OrElse(default: T): T
    {
      match this
      case NonNull(v) => v
      case Null => default
    }
  }

  /** How a call ends: it returns a value, or it throws and the caller's
      remaining statements do not run. */
  datatype Outcome<+T> = Returns(value: T) | Throws

  const IntMin: int := -0x8000_0000
  const IntMax: int := 0x7fff_ffff
  const IntRange: int := 0x1_0000_0000

  /** Kotlin's `Int`. */
  type Int32 = x: int | IntMin <= x <= IntMax

  /** The `Int` that two's complement arithmetic leaves for the exact value x:
      the one value in range that differs from x by a multiple of 2^32. */
  function Wrap(x: int): (r: Int32)
    ensures IntMin <= x <= IntMax ==> r == x
    ensures (x - r) % IntRange == 0
  {
    var k := (x - IntMin) / IntRange;
    assert x - IntMin == k * IntRange + (x - IntMin) % IntRange;
    (x - IntMin) % IntRange + IntMin
  }

  /** Kotlin's `a + b` on `Int`, which overflows silently. */
  function Plus(a: Int32, b: Int32): (r: Int32)
    ensures IntMin <= a + b <= IntMax ==> r == a + b
    ensures a >= 0 && b > 0 && a + b > IntMax ==> r < 0
  {
    Wrap(a + b)
  }

  /** Adding twice with wrap-around leaves the same `Int` as wrapping the
      exact sum once, so `a + b + c` in Kotlin is Wrap(a + b + c). */
  lemma PlusPlus(a: Int32, b: Int32, c: Int32)
    ensures Plus(Plus(a, b), c) == Wrap(a + b + c)
  {
    var ab := Plus(a, b);
    var r := Plus(ab, c);
    SumOfMultiples(a + b - ab, ab + c - r);
    assert (a + b + c) - r == (a + b - ab) + (ab + c - r);
    WrapUnique(a + b + c, r);
  }

  /** The `Int` two's complement leaves is unique: any `Int` that differs
      from x by a multiple of 2^32 is Wrap(x). */
  lemma WrapUnique(x: int, y: Int32)
    requires (x - y) % IntRange == 0
    ensures Wrap(x) == y
  {
    var w := Wrap(x);
    SumOfMultiples(x - y, -(x - w));
    assert (x - y) + -(x - w) == w - y;
    var d := w - y;
    assert -IntRange < d < IntRange;
  }

  /** Helper: multiples of 2^32 are closed under addition. */
  lemma SumOfMultiples(x: int, y: int)
    requires x % IntRange == 0 && y % IntRange == 0
    ensures (x + y) % IntRange == 0
  {
    var i, j := x / IntRange, y / IntRange;
    assert x == i * IntRange;
    assert y == j * IntRange;
    assert x + y == (i + j) * IntRange;
  }
}
