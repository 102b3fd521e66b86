/** The fixed-width unsigned integers of the C code. */
module Words {
  const WORD32 := 0x1_0000_0000

  type byte = x: int | 0 <= x < 0x100
  type word = x: int | 0 <= x < 0x1_0000
  type uint32 = x: int | 0 <= x < WORD32

  /** The number with these four bytes, the most significant first. */
  function FromBytes(b3: int, b2: int, b1: int, b0: int): int {
    0x100 * (0x100 * (0x100 * b3 + b2) + b1) + b0
  }

  lemma FourBytes(x: uint32)
    ensures FromBytes(x / 0x100_0000, x / 0x1_0000 % 0x100, x / 0x100 % 0x100, x % 0x100) == x
  {
    var y := x / 0x100;
    var z := y / 0x100;
    Quotients(x, y, z);
    assert x == 0x100 * y + x % 0x100 && y == 0x100 * z + y % 0x100 && z == 0x100 * (z / 0x100) + z % 0x100;
  }

  lemma Quotients(x: int, y: int, z: int)
    requires 0 <= x && y == x / 0x100 && z == y / 0x100
    ensures x / 0x1_0000 == z && x / 0x100_0000 == z / 0x100
  {
  }
}
