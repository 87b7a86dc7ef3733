# s33d in Dafny

A model of the command-line core of s33d, a generator of BIP39 mnemonic seed
phrases (`src/main.rs`). It covers:

- the validators for `-w` (word count) and `-b` (entropy bits), with Rust's
  `usize` parsing;
- the BIP39 length arithmetic: bits to word count, word count to bits, and the
  entropy byte count;
- the `-l` language parser (case-insensitive alias table) and the canonical
  language names;
- `main`'s sequencing: strength selection, mnemonic failure, the passphrase
  prompts with their exit codes 1 and 2, and whether a seed is derived and from
  which passphrase;
- the boxed four-column word grid (column widths, separator spreading, header,
  rows, bottom border), written as methods with loops as in the source;
- the half-block QR rendering and its centred box, also written as methods with
  loops.

Files, one module each:

- `results.dfy`: `Option` and `Result`.
- `decimal.dfy`: decimal rendering and `str::parse::<usize>()`.
- `display.dfy`: repeated characters, sums, the target box width, and what is
  assumed of display width.
- `strength.dfy`: validators and length arithmetic.
- `languages.dfy`: the language parser.
- `session.dfy`: `main`.
- `word_grid.dfy`: the word box.
- `qr_render.dfy`: the QR box.

Display width (`UnicodeWidthStr::width`) is a parameter `width: string -> nat`.
Claims about how wide a rendered line is hold for every width function that
satisfies `Display.TerminalWidth`:

- widths add up over concatenation;
- the space and the six box-drawing characters take one column each.

The QR box draws only one-column characters, so its widths are counted in
characters.

## Model

| member | source | states |
|---|---|---|
| Display.Repeat | src/main.rs:441 | `str::repeat` of one character: exactly `k` copies of it |
| Display.Spaces | src/main.rs:433 | `" ".repeat(k)`: exactly `k` spaces |
| Decimal.DecimalString | src/main.rs:408-409 | the rendering of a number is a non-empty string of digits without a leading zero |
| Decimal.ParseUsize | src/main.rs:199 | a parse succeeds only on a string starting with `+` or a digit, and its value fits in a 64-bit `usize` |
| Decimal.DigitsValueOfDecimal | src/main.rs:408-409 | the digits of a rendered number denote that number |
| Decimal.ParseDecimalString | src/main.rs:199 | round trip: the rendering of `n` parses back to `n`, with or without a leading `+`, exactly when `n` fits in a `usize`; above that it is rejected |
| Decimal.DigitsValueLeadingZero | src/main.rs:207 | a leading zero does not change the value of a digit string |
| Decimal.ParseLeadingZero | src/main.rs:207 | a parse ignores a leading zero in front of digits |
| Decimal.ParseDigits | src/main.rs:199 | a non-empty digit string, with or without a leading `+`, parses to the number it denotes exactly when that number fits in a `usize` |
| Decimal.ParseRejectsNonDigit | src/main.rs:199 | a string holding any non-digit, other than a `+` at the front followed by more characters, is rejected |
| Strength.ValidateWords | src/main.rs:198-204 | `Ok` iff the argument parses (with any `+` or leading zeros) to 12 or 24, and then with the parsed value; the error is "must be a valid number" exactly when the parse failed, otherwise the 12-or-24 message |
| Strength.ValidateBits | src/main.rs:206-212 | `Ok` iff the argument parses (with any `+` or leading zeros) to 128, 160, 192, 224 or 256, and then with the parsed value; the two error messages are split the same way as for `-w` |
| Strength.ValidateWordsDecimal | src/main.rs:198-204 | a decimal numeral is accepted by `-w` iff it denotes 12 or 24; the accepted count maps to bits and back to itself |
| Strength.ValidateBitsDecimal | src/main.rs:206-212 | a decimal numeral is accepted by `-b` iff it denotes one of the five BIP39 strengths, with that value |
| Strength.BitsToWordCount | src/main.rs:222-227 | for every legal strength, `ENT + ENT/32` divides by 11 exactly; the count is `3*ENT/32`, one of 12, 15, 18, 21 or 24 |
| Strength.WordsToBits | src/main.rs:214-220 | a 12 or 24 word count maps to a legal strength whose word count is that count again |
| Strength.EntropyByteCount | src/main.rs:125 | for a legal strength, `bits / 8` is a whole number of bytes (no bits lost), between 16 and 32, and a multiple of 4 |
| Strength.SelectStrength | src/main.rs:112-118 | `-w` wins and fixes the word count; otherwise `-b`; otherwise 128; the result is always a legal strength |
| Strength.WordCountDeterminesStrength | src/main.rs:222-227 | different legal strengths give different word counts |
| Languages.LowerChar | src/main.rs:230 | ASCII capitals move to lower case, the Kelvin sign becomes `k`, every other character is kept |
| Languages.ToLower | src/main.rs:230 | lower-casing keeps the length and lowers each character in place |
| Languages.LowerCaseUnchanged | src/main.rs:230 | a lower-case string is its own lower-cased form |
| Languages.ParseLanguage | src/main.rs:229-245 | every rejection carries the "unsupported language" message |
| Languages.DisplayName | src/main.rs:31-44 | every display name is non-empty and lower case |
| Languages.Aliases | src/main.rs:231-240 | each language's alias list starts with its display name |
| Languages.AliasSelects | src/main.rs:231-240 | every alias of a language selects that language |
| Languages.AliasSelectsAt | src/main.rs:231-240 | the alias at each position of a language's list selects that language |
| Languages.SelectedThroughAlias | src/main.rs:231-241 | whatever the lookup selects, it selects through one of that language's aliases |
| Languages.ParseLanguageMatchesAliases | src/main.rs:229-245 | an argument parses to a language iff its lower-cased form is one of that language's aliases, and is rejected iff it is nobody's alias |
| Languages.AliasesDisjoint | src/main.rs:231-240 | no alias belongs to two languages |
| Languages.ParseDisplayName | src/main.rs:31-44 | the display name of a language parses back to that language |
| Languages.LowerUpper | src/main.rs:230 | lower-casing an ASCII upper-cased string equals lower-casing the original |
| Languages.ParseLanguageIgnoresCase | src/main.rs:229-230 | upper-casing the argument does not change what it parses to |
| Session.DecidePassphrase | src/main.rs:137-160 | without `-p` the passphrase is empty and nothing is asked; an empty first entry is accepted after one prompt; exit 2 iff a non-empty entry is confirmed differently; exit 1 iff a read fails; an accepted non-empty passphrase was typed twice identically |
| Session.EmptyEntryNeedsNoConfirmation | src/main.rs:145-146 | after an empty first entry the confirmation is never read |
| Session.Main | src/main.rs:105-167 | `--list` ends the run and nothing else does that. The run completes iff the mnemonic is built and the passphrase step accepts a passphrase. A completed run uses the strength `-w`, `-b` or the default selects; its entropy bytes times 8 equal the bits; its word count is the BIP39 count, equal to `-w` when given; its passphrase is the one the passphrase step accepted. Exit 2 iff the passphrases differ. Exit 1 iff the mnemonic fails (with the mnemonic message) or a passphrase read fails. A seed is derived iff `-s`, from the accepted passphrase, which is empty without `-p` |
| WordGrid.NumRows | src/main.rs:403 | the number of rows is the ceiling of words over four: enough cells, and less than one spare row |
| WordGrid.PlacementCovers | src/main.rs:403-407 | every word index is shown in some cell of the grid's four columns |
| WordGrid.PlacementUnique | src/main.rs:407 | no two cells show the same word |
| WordGrid.ItemTextLabel | src/main.rs:408-409 | an item is its number, `". "` and the word, and the number reads back as the word's 1-based position |
| WordGrid.CellTextBlank | src/main.rs:448-453 | a cell is blank exactly when no word falls on it |
| WordGrid.WidestInColumn | src/main.rs:406-415 | the result is at least the width of every item in the column, and is 0 or the width of one of them |
| WordGrid.ColumnWidths | src/main.rs:404-416 | each column width is at least the width of every item in that column, and is 0 or the width of one of them |
| WordGrid.Separators | src/main.rs:418-434 | the box is the larger of the required width and 63. The three separators are spaces, at least 3 wide, differ by at most one with the wider ones first, and together with the columns fill the box exactly |
| WordGrid.SeparatorsTotalAll | src/main.rs:427-433 | the three separators take three base widths, three even shares and the remainder |
| WordGrid.SeparatorShapes | src/main.rs:431-434 | separators built this way are spaces, at least 3 wide, in non-increasing length within one of each other |
| WordGrid.PaddedCellLayout | src/main.rs:455-457 | a padded cell is the cell's text followed only by spaces, `widths[col] - width(item)` of them |
| WordGrid.RowTextPrefix | src/main.rs:460-466 | the row is built left to right: the line after fewer cells is a prefix of the line after more |
| WordGrid.RowTextExtends | src/main.rs:461-465 | each step of the join loop only appends to the line |
| WordGrid.RenderRow | src/main.rs:446-466 | a row line is each cell padded to its column width, the first three followed by their separators |
| WordGrid.RowTextWidth | src/main.rs:455-466 | a row is exactly as wide as the column widths plus the separators so far |
| WordGrid.RowTextStep | src/main.rs:455-466 | each padded cell widens the row by its column width, plus its separator's width if it has one |
| WordGrid.PaddedCellWidth | src/main.rs:455-457 | a padded cell is exactly as wide as its column |
| WordGrid.RowLineWidth | src/main.rs:468 | a boxed row is four columns wider than the columns and separators together |
| WordGrid.SaturatingSub | src/main.rs:440 | `saturating_sub` is the difference when it is not negative, and 0 otherwise |
| WordGrid.HeaderLine | src/main.rs:436-442 | the header starts with the corner, the dash and the title, ends with `┐`, and has only dashes between |
| WordGrid.BoxRowLayout | src/main.rs:468 | a boxed row is the row between `"│ "` and `" │"`, four characters longer |
| WordGrid.BottomLine | src/main.rs:471 | the bottom border is `finalWidth + 4` characters: corners at both ends, dashes between |
| WordGrid.HeaderLineWidth | src/main.rs:436-442 | the header is as wide as the box, or one column wider than its title when the title does not fit |
| WordGrid.BoxRowWidth | src/main.rs:468 | the borders add four columns to a row |
| WordGrid.BottomLineWidth | src/main.rs:471 | the bottom border is as wide as the box |
| WordGrid.ColumnWidthsFit | src/main.rs:455-456 | the computed widths fit every cell of every row, so the padding never underflows |
| WordGrid.RenderRows | src/main.rs:445-469 | one boxed line per grid row, each the row's rendering |
| WordGrid.RenderWordBox | src/main.rs:403-471 | the box has a header, one line per row and a bottom border. Each column is as wide as its widest item (0 if empty) and every cell fits it. The box is the larger of the required width and 63. The three separators are spaces, at least 3 wide, within one of each other with the wider first, and together with the columns fill the box. Every line after the header is `finalWidth + 4` columns wide, and so is the header whenever its title fits |
| WordGrid.WordBoxWidths | src/main.rs:436-471 | all lines after the header are `finalWidth + 4` columns wide, and so is the header when its title fits |
| WordGrid.BodyLineWidths | src/main.rs:445-471 | every row line and the bottom border are `finalWidth + 4` columns wide |
| QrRender.Glyph | src/main.rs:532-537 | the glyph is the full block, space, upper half or lower half exactly for dark/dark, light/light, dark/light and light/dark |
| QrRender.GridIndexInRange | src/main.rs:529-530 | every module index read in the loop is inside the symbol |
| QrRender.ModuleAt | src/main.rs:529-530 | a module inside the symbol is the grid entry at `y * width + x`, always in range; a row below the symbol is light |
| QrRender.GlyphAt | src/main.rs:529-537 | the full block and the blank mean two dark and two light modules; on the last line of an odd-sized symbol only upper halves and blanks appear |
| QrRender.GlyphLines | src/main.rs:526-542 | one line per pair of module rows, the last pair completed with light modules. Each line has the two-space quiet zone on both sides, and each column holds the glyph of its two modules |
| QrRender.BoxInnerWidth | src/main.rs:507-508 | the box is at least 63 wide and wide enough for the code with its quiet zone, and is one of the two |
| QrRender.Padding | src/main.rs:512-514 | left and right padding fill the box around the code, and the right is the left or one more |
| QrRender.Framed | src/main.rs:523 | a framed line is the content plus both paddings plus 4; content as wide as the code with its quiet zone fills the box exactly |
| QrRender.FramedLayout | src/main.rs:541 | a framed line has its borders at both ends, blanks for the paddings, and the content after the left padding |
| QrRender.TitleLine | src/main.rs:517-520 | the title line is `┌─ `, the title, a space, then dashes ending in `─┐`, and is as wide as the other lines |
| QrRender.BottomBorder | src/main.rs:548 | the bottom border is as wide as the other lines: corners at both ends, dashes between |
| QrRender.RenderQrBox | src/main.rs:516-548 | the output is a blank line, the title, a padding line, the glyph lines, a padding line and the bottom. Every drawn line is the box width plus 4. On each glyph line, each module pair's glyph sits at a fixed column; before the glyphs there are only the border, the left padding and the quiet zone; after them only the quiet zone, the right padding and the border |
| QrRender.QrGlyphLineBorders | src/main.rs:527-541 | every glyph line is border and blanks before its first glyph and blanks and border after its last |
| QrRender.FramedGlyphLine | src/main.rs:540-541 | framing a quiet-zoned line joins the centring padding and the quiet zone into one run of blanks on each side |
| QrRender.QrBoxShape | src/main.rs:520-548 | every drawn line is the box width plus 4, and glyphs sit after the border, the centring and the quiet zone |

## Left out

- The random source (`OsRng.fill_bytes`) and the entropy bytes: the model sizes the buffer but does not draw it.
- `verify_entropy_quality` (the `/dev/urandom` and `/dev/random` checks): filesystem probing that only prints warnings.
- The BIP39 library: `Mnemonic::from_entropy_in` is the boolean `mnemonicOk`, and the words are given to the grid. The PBKDF2 seed of `to_seed` is represented by the passphrase it is derived from.
- `prompt_password`, terminal I/O and `process::exit`: the two prompt results are the `Entry` parameters, and an exit is a `Run` value.
- Zeroizing buffers and `zeroize` calls: memory hygiene with no observable result.
- `clap` argument plumbing. This includes `conflicts_with` between `-w` and `-b` and the default language; `SelectStrength` still handles both being present, `-w` winning as in `main`.
- The banners, the security and status boxes, `print_error`/`print_warning` framing, the `-e` entropy details, `--hex` and the clean-mode printing: fixed text or hex output.
- `print_supported_languages` and its table: a listing of fixed text. The run only records that languages were listed.
- The Korean plain-list branch of the word display: a plain numbered list with no layout to prove. The word box is modelled for the other languages.
- QR symbol generation (`QrCode::with_error_correction_level`, `to_colors`), the floating-point square root that recovers the side length, and the error branch for an over-long phrase. The model takes the side length and a grid of side times side modules.
- Languages.LowerChar: lower-cases only the ASCII capitals and the Kelvin sign. Other characters are kept even when Unicode would lower-case them. No such character lower-cases into ASCII, so the alias lookup sees the same result either way.
- Languages.ToLower: built on `LowerChar`, so it keeps one character per input character, while `to_lowercase` can expand a character into several. No such expansion produces an alias, so `ParseLanguage` selects the same language either way.
- WordGrid.WidestInColumn: keeps the running maximum of a column in a local variable and stores it into `columnWidths` once per column, where the source updates the vector element at each new maximum. The final vector is the same.
- Display width (`UnicodeWidthStr::width`) is an abstract parameter. The width claims in `WordGrid` assume `Display.TerminalWidth` of it.
- WordGrid.RenderWordBox: for a header whose title is wider than the box, it does not state the header's width beyond `HeaderLineWidth`.
