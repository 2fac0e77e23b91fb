/** The C integer width the module stores its parsed values in: `pid_t` and `int`
    are both 32-bit two's-complement on the kernel's targets. */
module CInt {

  const IntMin: int := -0x8000_0000
  const IntMax: int := 0x7fff_ffff
  const Modulus: int := 0x1_0000_0000

  predicate InIntRange(v: int) {
    IntMin <= v <= IntMax
  }

  /** The value a C `int` (or `pid_t`) holds after being assigned the integer `v`:
      the low 32 bits of `v`, read as two's complement. */
  function ToInt(v: int): (r: int)
    ensures InIntRange(r)
    ensures (r - v) % Modulus == 0
    ensures InIntRange(v) ==> r == v
  {
    var m := v % Modulus;
    assert v == Modulus * (v / Modulus) + m;
    if m <= IntMax then m else m - Modulus
  }
}
