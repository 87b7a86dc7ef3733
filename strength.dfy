/** Entropy strength and phrase length: the command-line validators for `-w` and
    `-b`, and the BIP39 length arithmetic ("Generating the mnemonic" in BIP-0039:
    checksum length CS = ENT / 32, sentence length MS = (ENT + CS) / 11). */
module Strength {
  import opened Results
  import opened Decimal

  /** Strength used when neither `-w` nor `-b` is given. */
  const DEFAULT_STRENGTH: nat := 128

  const WORDS_NOT_A_NUMBER: string := "Word count must be a valid number"
  const WORDS_NOT_ALLOWED: string :=
    "word count must be either 12 or 24. use 12 for good security or 24 for maximum security."
  const BITS_NOT_A_NUMBER: string := "bits must be a valid number"
  const BITS_NOT_ALLOWED: string := "Bits must be one of: 128, 160, 192, 224, or 256"

  /** The entropy strengths BIP39 allows and `-b` accepts. */
  predicate IsStrength(bits: nat) {
    bits == 128 || bits == 160 || bits == 192 || bits == 224 || bits == 256
  }

  /** The word counts `-w` accepts. */
  predicate IsWordCount(words: nat) {
    words == 12 || words == 24
  }

  /** `validate_words`: parse the argument, then accept 12 or 24 only. */
  function ValidateWords(s: string): (r: Result<nat, string>)
    ensures r.Ok? ==> IsWordCount(r.value) && ParseUsize(s) == Some(r.value)
    ensures r.Ok? <==> ParseUsize(s).Some? && IsWordCount(ParseUsize(s).value)
    ensures r.Err? ==> r.error == (if ParseUsize(s).None? then WORDS_NOT_A_NUMBER else WORDS_NOT_ALLOWED)
  {
    match ParseUsize(s)
    case None => Err(WORDS_NOT_A_NUMBER)
    case Some(words) => if words == 12 || words == 24 then Ok(words) else Err(WORDS_NOT_ALLOWED)
  }

  /** `validate_bits`: parse the argument, then accept the five BIP39 strengths only. */
  function ValidateBits(s: string): (r: Result<nat, string>)
    ensures r.Ok? ==> IsStrength(r.value) && ParseUsize(s) == Some(r.value)
    ensures r.Ok? <==> ParseUsize(s).Some? && IsStrength(ParseUsize(s).value)
    ensures r.Err? ==> r.error == (if ParseUsize(s).None? then BITS_NOT_A_NUMBER else BITS_NOT_ALLOWED)
  {
    match ParseUsize(s)
    case None => Err(BITS_NOT_A_NUMBER)
    case Some(bits) =>
      if bits == 128 || bits == 160 || bits == 192 || bits == 224 || bits == 256 then Ok(bits)
      else Err(BITS_NOT_ALLOWED)
  }

  /** `bits_to_word_count`: (ENT + ENT / 32) / 11. For every legal strength the
      division is exact and the phrase has 12, 15, 18, 21 or 24 words. */
  function BitsToWordCount(bits: nat): (count: nat)
    ensures IsStrength(bits) ==> (bits + bits / 32) % 11 == 0 && count * 11 == bits + bits / 32
    ensures IsStrength(bits) ==> count == 3 * bits / 32
    ensures IsStrength(bits) ==> count == 12 || count == 15 || count == 18 || count == 21 || count == 24
  {
    var checksumBits := bits / 32;
    (bits + checksumBits) / 11
  }

  /** `words_to_bits`: the strength of a 12- or 24-word phrase. Any other count is
      unreachable in the source (it panics), so it is excluded here. */
  function WordsToBits(words: nat): (bits: nat)
    requires IsWordCount(words)
    ensures IsStrength(bits) && BitsToWordCount(bits) == words
  {
    if words == 12 then 128 else 256
  }

  /** The entropy buffer size `bits / 8`: a whole number of bytes, 16 to 32. */
  function EntropyByteCount(bits: nat): (bytes: nat)
    ensures IsStrength(bits) ==> bytes * 8 == bits && 16 <= bytes <= 32 && bytes % 4 == 0
  {
    bits / 8
  }

  /** The strength `main` settles on: the word count's strength if `-w` was given,
      else the `-b` value, else the default. The arguments are the values the two
      validators returned. */
  function SelectStrength(words: Option<nat>, bits: Option<nat>): (strength: nat)
    requires words.Some? ==> IsWordCount(words.value)
    requires bits.Some? ==> IsStrength(bits.value)
    ensures IsStrength(strength)
    ensures words.Some? ==> BitsToWordCount(strength) == words.value
    ensures words.None? && bits.Some? ==> strength == bits.value
    ensures words.None? && bits.None? ==> strength == DEFAULT_STRENGTH
  {
    match words
    case Some(w) => WordsToBits(w)
    case None =>
      match bits
      case Some(b) => b
      case None => DEFAULT_STRENGTH
  }

  /** `BitsToWordCount` tells the legal strengths apart, so the phrase length
      determines the strength. */
  lemma WordCountDeterminesStrength(b1: nat, b2: nat)
    requires IsStrength(b1) && IsStrength(b2)
    ensures BitsToWordCount(b1) == BitsToWordCount(b2) ==> b1 == b2
  {
  }

  /** `-w` accepts exactly the decimal numerals of 12 and 24, and for those the word
      count survives the trip through the strength: 12 -> 128 -> 12, 24 -> 256 -> 24. */
  lemma ValidateWordsDecimal(n: nat)
    ensures ValidateWords(DecimalString(n)).Ok? <==> IsWordCount(n)
    ensures ValidateWords(DecimalString(n)).Ok? ==>
      ValidateWords(DecimalString(n)).value == n && BitsToWordCount(WordsToBits(n)) == n
  {
    ParseDecimalString(n);
  }

  /** `-b` accepts exactly the decimal numerals of 128, 160, 192, 224 and 256. */
  lemma ValidateBitsDecimal(n: nat)
    ensures ValidateBits(DecimalString(n)).Ok? <==> IsStrength(n)
    ensures ValidateBits(DecimalString(n)).Ok? ==> ValidateBits(DecimalString(n)).value == n
  {
    ParseDecimalString(n);
  }
}
