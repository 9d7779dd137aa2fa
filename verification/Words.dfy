/** 64-bit unsigned machine words: values below 2^64, with addition that wraps. */
module Words {
  const WORD: int := 0x1_0000_0000_0000_0000

  type Word = w: int | 0 <= w < WORD

  datatype Option<+T> = None | Some(value: T)

  /** `a + d` as the hardware computes it; `d` may be negative (`int64_t{-1}`). */
  function Plus(a: Word, d: int): Word {
    (a + d) % WORD
  }

  /** Two counters less than 2^64 apart agree as words if and only if they are equal. */
  lemma SameCounter(a: nat, b: nat)
    requires a - b < WORD && b - a < WORD
    ensures a % WORD == b % WORD <==> a == b
  {
  }

  /** Adding to the word that stores a counter stores the sum. */
  lemma PlusMod(n: nat, d: int)
    requires n + d >= 0
    ensures Plus(n % WORD, d) == (n + d) % WORD
  {
  }

  /** A sum of words and the sum of the counters that they store agree as words. */
  lemma SumMod(x: nat, y: nat, n: nat)
    requires x % WORD == y % WORD
    ensures (x + n % WORD) % WORD == (y + n) % WORD
  {
  }
}
