/** Java's 32-bit `int`: the range, and the two's-complement wrap-around that
    `++`, `--` and `+` perform on overflow. */
module Int32 {

  const MIN: int := -0x8000_0000
  const MAX: int := 0x7fff_ffff
  /** 2^32, the period of the wrap-around. */
  const MODULUS: int := 0x1_0000_0000

  type int32 = x: int | MIN <= x <= MAX

  /** The value a Java `int` holds after an arithmetic result `v` is stored:
      the int32 that differs from `v` by a multiple of 2^32. */
  function Wrap(v: int): (r: int32)
    ensures MIN <= v <= MAX ==> r == v
  {
    (v - MIN) % MODULUS + MIN
  }

  lemma ShiftMod(y: int, q: int)
    ensures (y + MODULUS * q) % MODULUS == y % MODULUS
  {
  }

  /** Wrap changes its argument by a multiple of 2^32. */
  lemma WrapCongruent(v: int)
    ensures (v - Wrap(v)) % MODULUS == 0
  {
  }

  /** Wrapping after every step gives the same int as wrapping once at the end. */
  lemma WrapAdd(a: int, b: int)
    ensures Wrap(Wrap(a) + b) == Wrap(a + b)
  {
    var q := (a - MIN) / MODULUS;
    assert Wrap(a) == a - MODULUS * q;
    ShiftMod(a + b - MIN, -q);
  }

  /** Two ints less than 2^32 apart that wrap to the same value are equal. */
  lemma WrapInjective(u: int, v: int)
    requires Wrap(u) == Wrap(v) && -MODULUS < u - v < MODULUS
    ensures u == v
  {
    var a, b := u - Wrap(u), v - Wrap(v);
    WrapCongruent(u);
    WrapCongruent(v);
    assert a == MODULUS * (a / MODULUS);
    assert b == MODULUS * (b / MODULUS);
    assert u - v == MODULUS * (a / MODULUS - b / MODULUS);
  }
}
