/** One run of the tool, as `main` sequences it: pick the strength, size the
    entropy, build the mnemonic, settle the passphrase, derive the seed. Terminal
    reads, the random source and the BIP39 library are outside the model: what they
    return is passed in. */
module Session {
  import opened Results
  import opened Strength

  const PASSPHRASE_READ_FAILED: string := "Failed to read passphrase"
  const PASSPHRASES_DIFFER: string := "passphrases do not match"
  const MNEMONIC_FAILED: string := "Error generating mnemonic: "

  /** What one `prompt_password` call gave back. */
  datatype Entry = Entered(text: string) | ReadFailed

  /** How the passphrase step ends: with a passphrase and the number of prompts
      shown, or with the process exiting. */
  datatype Decision =
    | Use(passphrase: string, prompts: nat)
    | Abort(exitCode: nat, message: string)

  /** The passphrase branch of `main`. With `-p` off nothing is asked and the
      passphrase is empty. Otherwise the first entry is read; an empty one is taken
      as it is, a non-empty one must be typed again identically. A failed read exits
      with code 1, a mismatch with code 2. `confirm` is only consulted when the
      second prompt is shown. */
  function DecidePassphrase(prompt: bool, first: Entry, confirm: Entry): (d: Decision)
    ensures !prompt ==> d == Use("", 0)
    ensures prompt && first == Entered("") ==> d == Use("", 1)
    ensures d.Abort? ==> prompt && (d.exitCode == 1 || d.exitCode == 2)
    ensures (d.Abort? && d.exitCode == 2) <==>
      prompt && first.Entered? && first.text != "" && confirm.Entered? && confirm.text != first.text
    ensures (d.Abort? && d.exitCode == 1) <==>
      prompt && (first.ReadFailed? || (first.text != "" && confirm.ReadFailed?))
    ensures d.Use? && prompt ==> first == Entered(d.passphrase)
    ensures d.Use? && d.passphrase != "" ==> d.prompts == 2 && confirm == Entered(d.passphrase)
  {
    if !prompt then Use("", 0)
    else
      match first
      case ReadFailed => Abort(1, PASSPHRASE_READ_FAILED)
      case Entered(pass) =>
        if pass == "" then Use(pass, 1)
        else
          match confirm
          case ReadFailed => Abort(1, PASSPHRASE_READ_FAILED)
          case Entered(again) =>
            if pass != again then Abort(2, PASSPHRASES_DIFFER) else Use(pass, 2)
  }

  /** An empty first entry ends the step without a second prompt: the confirmation
      is never looked at. */
  lemma EmptyEntryNeedsNoConfirmation(c1: Entry, c2: Entry)
    ensures DecidePassphrase(true, Entered(""), c1) == DecidePassphrase(true, Entered(""), c2)
  {
  }

  /** The command-line options `main` reads, after clap has validated them. */
  datatype Options = Options(
    words: Option<nat>,
    bits: Option<nat>,
    passphrase: bool,
    showSeed: bool,
    listLanguages: bool)

  predicate ValidatedOptions(o: Options) {
    && (o.words.Some? ==> IsWordCount(o.words.value))
    && (o.bits.Some? ==> IsStrength(o.bits.value))
  }

  /** The input the seed is derived from: the generated mnemonic together with this
      passphrase (PBKDF2 itself is the library's). */
  datatype SeedInput = SeedFrom(passphrase: string)

  datatype Run =
    | LanguagesListed
    | Exited(exitCode: nat, message: string)
    | Generated(bits: nat, wordCount: nat, entropyBytes: nat, passphrase: string, seed: Option<SeedInput>)

  /** `main`, from argument values to outcome. A mismatched confirmation ends the
      run with exit code 2 before any seed exists; a seed is derived exactly when the
      run completes with `-s` set, from the passphrase that was accepted (empty
      without `-p`). `mnemonicOk` is whether the
      BIP39 library accepted the entropy; `first` and `confirm` are what the two
      passphrase prompts would read. */
  function Main(o: Options, mnemonicOk: bool, first: Entry, confirm: Entry): (r: Run)
    requires ValidatedOptions(o)
    ensures o.listLanguages <==> r.LanguagesListed?
    ensures r.Generated? ==>
      && IsStrength(r.bits)
      && r.entropyBytes * 8 == r.bits
      && r.wordCount * 11 == r.bits + r.bits / 32
      && (o.words.Some? ==> r.wordCount == o.words.value)
    ensures r.Exited? && r.exitCode == 2 <==>
      && !o.listLanguages && mnemonicOk && o.passphrase
      && first.Entered? && first.text != "" && confirm.Entered? && confirm.text != first.text
    ensures r.Generated? ==> (r.seed.Some? <==> o.showSeed)
    ensures r.Generated? && r.seed.Some? ==> r.seed.value == SeedFrom(r.passphrase)
    ensures r.Generated? && !o.passphrase ==> r.passphrase == ""
    ensures r.Generated? && o.passphrase ==> first == Entered(r.passphrase)
    ensures !o.listLanguages && !mnemonicOk ==> r == Exited(1, MNEMONIC_FAILED)
    ensures r.Generated? <==>
      !o.listLanguages && mnemonicOk && DecidePassphrase(o.passphrase, first, confirm).Use?
    ensures r.Exited? && r.exitCode == 1 <==>
      !o.listLanguages &&
      (!mnemonicOk || DecidePassphrase(o.passphrase, first, confirm) == Abort(1, PASSPHRASE_READ_FAILED))
    ensures r.Generated? ==>
      && r.bits == SelectStrength(o.words, o.bits)
      && r.passphrase == DecidePassphrase(o.passphrase, first, confirm).passphrase
  {
    if o.listLanguages then LanguagesListed
    else
      var bits := SelectStrength(o.words, o.bits);
      var wordCount := BitsToWordCount(bits);
      var entropyBytes := EntropyByteCount(bits);
      if !mnemonicOk then Exited(1, MNEMONIC_FAILED)
      else
        match DecidePassphrase(o.passphrase, first, confirm)
        case Abort(code, message) => Exited(code, message)
        case Use(passphrase, _) =>
          var seed := if o.showSeed then Some(SeedFrom(passphrase)) else None;
          Generated(bits, wordCount, entropyBytes, passphrase, seed)
  }
}
