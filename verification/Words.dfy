/** Unsigned 64-bit machine words. In a release build arithmetic on them wraps around. */
module Words {
  const WORD: nat := 0x1_0000_0000_0000_0000
  const U64_MAX: nat := 0xFFFF_FFFF_FFFF_FFFF

  type Word = n: nat | n < WORD

  function Plus(a: Word, b: nat): Word { (a + b) % WORD }

  function Minus(a: Word, b: nat): Word { (a - b) % WORD }

  lemma PlusPlus(a: nat, b: nat)
    ensures Plus(a % WORD, b) == (a + b) % WORD
  {
  }

  lemma MinusMinus(a: int, b: nat)
    ensures Minus(a % WORD, b) == (a - b) % WORD
  {
  }

  lemma WordWithin(a: int)
    ensures 0 <= a < WORD ==> a % WORD == a
    ensures a < 0 <= a + WORD ==> a % WORD == a + WORD
  {
  }
}
