/** The program's unsigned 64-bit words and the signed ones its tables hold. */
module Words {
  const I64_MAX: int := 0x7FFF_FFFF_FFFF_FFFF
  const TWO_63: int := 0x8000_0000_0000_0000
  const TWO_64: int := 0x1_0000_0000_0000_0000

  type U64 = x: int | 0 <= x < TWO_64

  /** The cast from the program's word to the table's. */
  function AsI64(x: U64): int {
    if x < TWO_63 then x else x - TWO_64
  }

  /** Two's complement: the one signed 64-bit number that is the word, or the word less 2^64. */
  lemma SignedReading(x: U64)
    ensures I64_MAX == 9223372036854775807 && TWO_63 == I64_MAX + 1 && TWO_64 == 2 * TWO_63
    ensures -9223372036854775808 <= AsI64(x) <= 9223372036854775807
    ensures AsI64(x) == x || AsI64(x) == x - 18446744073709551616
  {
  }
}
