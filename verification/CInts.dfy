/** Integers of the C code that are narrower than the engine's own. */
module CInts {
  const INT_RANGE := 0x1_0000_0000

  /** Conversion to a C int of 32 bits. */
  function ToCInt(n: int): (r: int)
    ensures -0x8000_0000 <= r <= 0x7fff_ffff && (-0x8000_0000 <= n <= 0x7fff_ffff <==> r == n)
    ensures (n - r) % INT_RANGE == 0
  {
    (n + 0x8000_0000) % INT_RANGE - 0x8000_0000
  }
}
