/**
 The latch's version word: bit 0 says that a writer is inside, the rest counts
 completed exclusive sections in steps of two.
 */
module VersionWord {

  const WORDS: nat := 0x1_0000_0000_0000_0000

  type Word = w: nat | w < WORDS

  const VERSION_STEP: nat := 2
  const LAST_ADVANCEABLE: nat := 18446744073709551613

  /** `word & 1 != 0`. */
  predicate IsExclusive(word: Word)
  {
    word % 2 != 0
  }

  /** `word | 1`. */
  function Enter(word: Word): Word
  {
    if word % 2 == 0 then word + 1 else word
  }

  /** `word & !1`. */
  function Base(word: Word): Word
  {
    word - word % 2
  }

  predicate CanAdvance(word: Word)
  {
    word <= LAST_ADVANCEABLE
  }

  datatype Checked = Value(word: Word) | Overflow

  function Advance(word: Word): Checked
  {
    if CanAdvance(word) && word + VERSION_STEP < WORDS then Value(word + VERSION_STEP) else Overflow
  }

  function Exit(word: Word): Checked
  {
    Advance(Base(word))
  }

  /** The guard on entry is exactly what leaving needs: from an even word that may be entered, entering and leaving
      advances by two, and from the one even word that may not, it would overflow. */
  lemma EnterThenExit(word: Word)
    requires !IsExclusive(word)
    ensures IsExclusive(Enter(word)) && Base(Enter(word)) == word
    ensures CanAdvance(word) <==> Exit(Enter(word)).Value?
    ensures CanAdvance(word) ==> Exit(Enter(word)).word == word + 2
    ensures !CanAdvance(word) <==> word == WORDS - 2
  {
  }

  /** The arithmetic above is what the bit operations compute. */
  lemma BitsAgree(w: bv64)
    ensures (w & 1 != 0) <==> (w % 2 != 0)
    ensures w | 1 == (if w % 2 == 0 then w + 1 else w)
    ensures w & !1 == w - w % 2
  {
  }
}
