/** Wordlist languages: the `-l` argument parser, a case-insensitive alias table,
    and the canonical display name of each language. */
module Languages {
  import opened Results

  /** The ten BIP39 wordlist languages. */
  datatype Language =
    | English | SimplifiedChinese | TraditionalChinese | French | Italian
    | Japanese | Korean | Spanish | Czech | Portuguese

  const UNSUPPORTED_LANGUAGE: string := "unsupported language. use --list to see available options."

  /** `char::to_lowercase` as far as it can matter to the alias table: the ASCII
      capitals and the Kelvin sign (U+212A, which lowercases to `k`) become ASCII
      lower-case letters. No other character lowercases to ASCII, so the model
      keeps the rest unchanged. */
  function LowerChar(c: char): (l: char)
    ensures 'A' <= c <= 'Z' ==> l as int == c as int + 32
    ensures c == '\U{212A}' ==> l == 'k'
    ensures !('A' <= c <= 'Z') && c != '\U{212A}' ==> l == c
  {
    if 'A' <= c <= 'Z' then (c as int + 32) as char
    else if c == '\U{212A}' then 'k'
    else c
  }

  /** A string that lower-casing leaves alone. */
  predicate IsLowerCase(s: string) {
    forall i :: 0 <= i < |s| ==> !('A' <= s[i] <= 'Z') && s[i] != '\U{212A}'
  }

  /** `str::to_lowercase`, character by character. */
  function ToLower(s: string): (t: string)
    ensures |t| == |s|
    ensures forall i :: 0 <= i < |s| ==> t[i] == LowerChar(s[i])
  {
    if s == [] then [] else ToLower(s[..|s| - 1]) + [LowerChar(s[|s| - 1])]
  }

  /** Lower-casing leaves a lower-case string alone. */
  lemma LowerCaseUnchanged(s: string)
    requires IsLowerCase(s)
    ensures ToLower(s) == s
  {
    assert forall i :: 0 <= i < |s| ==> ToLower(s)[i] == s[i];
  }

  /** ASCII upper-casing, used to state case-insensitivity. */
  function ToUpperAscii(s: string): (t: string)
    ensures |t| == |s|
  {
    if s == [] then []
    else
      var c := s[|s| - 1];
      ToUpperAscii(s[..|s| - 1]) + [if 'a' <= c <= 'z' then (c as int - 32) as char else c]
  }

  /** The alias table of `parse_language`, applied to an already lower-cased name;
      `AliasSelects` and `SelectedThroughAlias` state what it selects. */
  function LanguageOfName(t: string): Option<Language> {
    if t == "english" || t == "en" then Some(English)
    else if t == "chinese-simplified" || t == "cn" || t == "zh-cn" then Some(SimplifiedChinese)
    else if t == "chinese-traditional" || t == "tw" || t == "zh-tw" then Some(TraditionalChinese)
    else if t == "french" || t == "fr" then Some(French)
    else if t == "italian" || t == "it" then Some(Italian)
    else if t == "japanese" || t == "ja" || t == "jp" then Some(Japanese)
    else if t == "korean" || t == "ko" || t == "kr" then Some(Korean)
    else if t == "spanish" || t == "es" then Some(Spanish)
    else if t == "czech" || t == "cs" then Some(Czech)
    else if t == "portuguese" || t == "pt" then Some(Portuguese)
    else None
  }

  /** `parse_language`: the lower-cased argument is looked up in the alias table. */
  function ParseLanguage(s: string): (r: Result<Language, string>)
    ensures r.Err? ==> r.error == UNSUPPORTED_LANGUAGE
  {
    match LanguageOfName(ToLower(s))
    case Some(language) => Ok(language)
    case None => Err(UNSUPPORTED_LANGUAGE)
  }

  /** `language_display_name`: the canonical (long) name of a language. */
  function DisplayName(language: Language): (name: string)
    ensures name != [] && IsLowerCase(name)
  {
    match language
    case English => "english"
    case SimplifiedChinese => "chinese-simplified"
    case TraditionalChinese => "chinese-traditional"
    case French => "french"
    case Italian => "italian"
    case Japanese => "japanese"
    case Korean => "korean"
    case Spanish => "spanish"
    case Czech => "czech"
    case Portuguese => "portuguese"
  }

  /** The names `-l` accepts for each language, written in lower case; the
      canonical name comes first. */
  function Aliases(language: Language): (names: seq<string>)
    ensures |names| > 0 && names[0] == DisplayName(language)
  {
    match language
    case English => ["english", "en"]
    case SimplifiedChinese => ["chinese-simplified", "cn", "zh-cn"]
    case TraditionalChinese => ["chinese-traditional", "tw", "zh-tw"]
    case French => ["french", "fr"]
    case Italian => ["italian", "it"]
    case Japanese => ["japanese", "ja", "jp"]
    case Korean => ["korean", "ko", "kr"]
    case Spanish => ["spanish", "es"]
    case Czech => ["czech", "cs"]
    case Portuguese => ["portuguese", "pt"]
  }

  /** Every alias of a language selects that language. */
  lemma AliasSelects(t: string, language: Language)
    requires t in Aliases(language)
    ensures LanguageOfName(t) == Some(language)
  {
    var aliases := Aliases(language);
    var i :| 0 <= i < |aliases| && aliases[i] == t;
    AliasSelectsAt(language, i);
  }

  /** The alias at position `i` of a language's list selects that language; each
      language's names are looked up in a lemma of their own. */
  lemma AliasSelectsAt(language: Language, i: nat)
    requires i < |Aliases(language)|
    ensures LanguageOfName(Aliases(language)[i]) == Some(language)
  {
    match language
    case English => EnglishAliasesSelect();
    case SimplifiedChinese => SimplifiedChineseAliasesSelect();
    case TraditionalChinese => TraditionalChineseAliasesSelect();
    case French => FrenchAliasesSelect();
    case Italian => ItalianAliasesSelect();
    case Japanese => JapaneseAliasesSelect();
    case Korean => KoreanAliasesSelect();
    case Spanish => SpanishAliasesSelect();
    case Czech => CzechAliasesSelect();
    case Portuguese => PortugueseAliasesSelect();
  }

  lemma EnglishAliasesSelect()
    ensures LanguageOfName("english") == Some(English)
    ensures LanguageOfName("en") == Some(English)
  {
  }

  lemma SimplifiedChineseAliasesSelect()
    ensures LanguageOfName("chinese-simplified") == Some(SimplifiedChinese)
    ensures LanguageOfName("cn") == Some(SimplifiedChinese)
    ensures LanguageOfName("zh-cn") == Some(SimplifiedChinese)
  {
  }

  lemma TraditionalChineseAliasesSelect()
    ensures LanguageOfName("chinese-traditional") == Some(TraditionalChinese)
    ensures LanguageOfName("tw") == Some(TraditionalChinese)
    ensures LanguageOfName("zh-tw") == Some(TraditionalChinese)
  {
  }

  lemma FrenchAliasesSelect()
    ensures LanguageOfName("french") == Some(French)
    ensures LanguageOfName("fr") == Some(French)
  {
  }

  lemma ItalianAliasesSelect()
    ensures LanguageOfName("italian") == Some(Italian)
    ensures LanguageOfName("it") == Some(Italian)
  {
  }

  lemma JapaneseAliasesSelect()
    ensures LanguageOfName("japanese") == Some(Japanese)
    ensures LanguageOfName("ja") == Some(Japanese)
    ensures LanguageOfName("jp") == Some(Japanese)
  {
  }

  lemma KoreanAliasesSelect()
    ensures LanguageOfName("korean") == Some(Korean)
    ensures LanguageOfName("ko") == Some(Korean)
    ensures LanguageOfName("kr") == Some(Korean)
  {
  }

  lemma SpanishAliasesSelect()
    ensures LanguageOfName("spanish") == Some(Spanish)
    ensures LanguageOfName("es") == Some(Spanish)
  {
  }

  lemma CzechAliasesSelect()
    ensures LanguageOfName("czech") == Some(Czech)
    ensures LanguageOfName("cs") == Some(Czech)
  {
  }

  lemma PortugueseAliasesSelect()
    ensures LanguageOfName("portuguese") == Some(Portuguese)
    ensures LanguageOfName("pt") == Some(Portuguese)
  {
  }

  /** Whatever the lookup selects, it selects through one of that language's aliases. */
  lemma SelectedThroughAlias(t: string)
    requires LanguageOfName(t).Some?
    ensures t in Aliases(LanguageOfName(t).value)
  {
  }

  /** The parser is exactly the alias table read through lower-casing: an argument
      names a language iff its lower-cased form is one of that language's aliases,
      and it is rejected iff its lower-cased form is nobody's alias. */
  lemma ParseLanguageMatchesAliases(s: string, language: Language)
    ensures ParseLanguage(s) == Ok(language) <==> ToLower(s) in Aliases(language)
    ensures ParseLanguage(s).Err? <==> forall l: Language :: ToLower(s) !in Aliases(l)
  {
    var t := ToLower(s);
    if t in Aliases(language) {
      AliasSelects(t, language);
    }
    if LanguageOfName(t).Some? {
      SelectedThroughAlias(t);
    }
    forall l: Language | t in Aliases(l)
      ensures LanguageOfName(t).Some?
    {
      AliasSelects(t, l);
    }
  }

  /** No alias is shared: each name selects exactly one language. */
  lemma AliasesDisjoint(a: Language, b: Language, name: string)
    requires name in Aliases(a) && name in Aliases(b)
    ensures a == b
  {
    AliasSelects(name, a);
    AliasSelects(name, b);
  }

  /** Display names parse back to their language, so `DisplayName` is a right
      inverse of `ParseLanguage` and no two languages share a display name. */
  lemma ParseDisplayName(language: Language)
    ensures ParseLanguage(DisplayName(language)) == Ok(language)
  {
    LowerCaseUnchanged(DisplayName(language));
    AliasSelects(DisplayName(language), language);
  }

  lemma {:induction false} LowerUpper(s: string)
    ensures ToLower(ToUpperAscii(s)) == ToLower(s)
  {
    if s != [] {
      LowerUpper(s[..|s| - 1]);
    }
  }

  /** Case does not matter: upper-casing the argument does not change the result. */
  lemma ParseLanguageIgnoresCase(s: string)
    ensures ParseLanguage(ToUpperAscii(s)) == ParseLanguage(s)
  {
    LowerUpper(s);
  }
}
