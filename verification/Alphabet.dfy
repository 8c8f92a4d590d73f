/** The letters and digits as stretches of the code table. */
module Alphabet {

  /** `n` consecutive characters. */
  function Consecutive(first: char, n: nat): string
    requires first as int + n < 0xD800
  {
    seq(n, i requires 0 <= i < n => (first as int + i) as char)
  }

  const LETTERS := Consecutive('a', 26)
  const CAPITALS := Consecutive('A', 26)
  const DIGITS := Consecutive('0', 10)

  lemma InConsecutive(first: char, n: nat, c: char)
    requires first as int + n < 0xD800
    ensures c in Consecutive(first, n) <==> first as int <= c as int < first as int + n
  {
    if first as int <= c as int < first as int + n {
      assert Consecutive(first, n)[c as int - first as int] == c;
    }
  }
}
