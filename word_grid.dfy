/** The boxed word grid of `print_mnemonic_with_info`: numbered words laid out
    column-major over four columns, each column as wide as its widest item, the
    slack up to the target box width spread over the three separators. The display
    width of a string (`UnicodeWidthStr::width`) is the parameter `width`. */
module WordGrid {
  import opened Results
  import opened Decimal
  import opened Display

  const COLUMNS: nat := 4
  const SEPARATOR_COUNT: nat := COLUMNS - 1
  const BASE_SEPARATOR: string := "   "
  /** `UnicodeWidthStr::width("   ")`. */
  const BASE_SEPARATOR_WIDTH: nat := 3

  /** `(n + COLUMNS - 1) / COLUMNS`: the fewest rows that hold `n` words in four
      columns. */
  function NumRows(n: nat): (rows: nat)
    ensures rows * COLUMNS >= n && rows * COLUMNS < n + COLUMNS
  {
    (n + COLUMNS - 1) / COLUMNS
  }

  /** The word index shown in cell (row, col): words run down a column first. */
  function CellIndex(numRows: nat, row: nat, col: nat): nat {
    row + col * numRows
  }

  /** Every word has a cell: word `i` sits in row `i % numRows` of column
      `i / numRows`, and that column is one of the four. */
  lemma PlacementCovers(n: nat, i: nat)
    requires i < n
    ensures NumRows(n) > 0
    ensures var numRows := NumRows(n);
      i % numRows < numRows && i / numRows < COLUMNS && CellIndex(numRows, i % numRows, i / numRows) == i
  {
    var numRows := NumRows(n);
    var col, row := i / numRows, i % numRows;
    assert i == col * numRows + row;
    if col >= COLUMNS {
      MulMonotone(COLUMNS, col, numRows);
      assert false;
    }
  }

  /** No two cells show the same word. */
  lemma PlacementUnique(numRows: nat, r1: nat, c1: nat, r2: nat, c2: nat)
    requires r1 < numRows && r2 < numRows
    requires CellIndex(numRows, r1, c1) == CellIndex(numRows, r2, c2)
    ensures r1 == r2 && c1 == c2
  {
    if c1 < c2 {
      MulMonotone(c1 + 1, c2, numRows);
      assert false;
    } else if c2 < c1 {
      MulMonotone(c2 + 1, c1, numRows);
      assert false;
    }
  }

  /** `format!("{}. {}", index + 1, word)`: the numbered item for a word. */
  function ItemText(index: nat, word: string): string {
    DecimalString(index + 1) + ". " + word
  }

  /** An item is its 1-based number, `". "` and the word: the number in front
      reads back as `index + 1`. */
  lemma ItemTextLabel(index: nat, word: string)
    requires index + 1 <= USIZE_MAX
    ensures var item := ItemText(index, word);
      && |item| >= |word| + 3
      && item[|item| - |word|..] == word
      && item[|item| - |word| - 2..|item| - |word|] == ". "
      && ParseUsize(item[..|item| - |word| - 2]) == Some(index + 1)
  {
    var numeral := DecimalString(index + 1);
    ParseDecimalString(index + 1);
    ConcatSlices(numeral, ". ", word);
  }

  /** The text of cell (row, col): the numbered word it holds, or nothing. */
  function CellText(words: seq<string>, numRows: nat, row: nat, col: nat): string {
    var index := CellIndex(numRows, row, col);
    if index < |words| then ItemText(index, words[index]) else ""
  }

  /** A cell is blank exactly when no word falls on it. */
  lemma CellTextBlank(words: seq<string>, numRows: nat, row: nat, col: nat)
    ensures CellText(words, numRows, row, col) == [] <==> CellIndex(numRows, row, col) >= |words|
  {
  }

  /** The first loop of the layout: `column_widths[col]` is the widest item of
      column `col`, or 0 for a column without words. */
  method ColumnWidths(words: seq<string>, width: string -> nat) returns (widths: seq<nat>)
    ensures |widths| == COLUMNS
    ensures var numRows := NumRows(|words|);
      forall row: nat, col: nat | row < numRows && col < COLUMNS && CellIndex(numRows, row, col) < |words| ::
        width(CellText(words, numRows, row, col)) <= widths[col]
    ensures var numRows := NumRows(|words|);
      forall col: nat | col < COLUMNS ::
        widths[col] == 0 ||
        exists row: nat | row < numRows && CellIndex(numRows, row, col) < |words| ::
          widths[col] == width(CellText(words, numRows, row, col))
  {
    var numRows := NumRows(|words|);
    var columnWidths := new nat[COLUMNS](_ => 0);
    for col := 0 to COLUMNS
      invariant forall c: nat | col <= c < COLUMNS :: columnWidths[c] == 0
      invariant forall row: nat, c: nat | row < numRows && c < col && CellIndex(numRows, row, c) < |words| ::
        width(CellText(words, numRows, row, c)) <= columnWidths[c]
      invariant forall c: nat | c < col ::
        columnWidths[c] == 0 ||
        exists row: nat | row < numRows && CellIndex(numRows, row, c) < |words| ::
          columnWidths[c] == width(CellText(words, numRows, row, c))
    {
      var widest := WidestInColumn(words, width, numRows, col);
      columnWidths[col] := widest;
    }
    widths := columnWidths[..];
  }

  /** The inner loop of the first loop: the maximum item width of column `col`,
      or 0 if no word falls in it. */
  method WidestInColumn(words: seq<string>, width: string -> nat, numRows: nat, col: nat) returns (widest: nat)
    ensures forall row: nat | row < numRows && CellIndex(numRows, row, col) < |words| ::
      width(CellText(words, numRows, row, col)) <= widest
    ensures widest == 0 ||
      exists row: nat | row < numRows && CellIndex(numRows, row, col) < |words| ::
        widest == width(CellText(words, numRows, row, col))
  {
    widest := 0;
    for row := 0 to numRows
      invariant forall r: nat | r < row && CellIndex(numRows, r, col) < |words| ::
        width(CellText(words, numRows, r, col)) <= widest
      invariant widest == 0 ||
        exists r: nat | r < row && CellIndex(numRows, r, col) < |words| ::
          widest == width(CellText(words, numRows, r, col))
    {
      var index := row + col * numRows;
      if index < |words| {
        var item := ItemText(index, words[index]);
        assert item == CellText(words, numRows, row, col);
        var itemWidth := width(item);
        if itemWidth > widest {
          widest := itemWidth;
        }
      }
    }
  }

  /** Length of separator `j` when `extra` columns go to every separator and one
      more to each of the first `remainder`. */
  function SeparatorLength(extra: nat, remainder: nat, j: nat): nat {
    BASE_SEPARATOR_WIDTH + extra + (if j < remainder then 1 else 0)
  }

  /** Total length of the first `k` separators. */
  function SeparatorsTotal(extra: nat, remainder: nat, k: nat): nat {
    if k == 0 then 0 else SeparatorsTotal(extra, remainder, k - 1) + SeparatorLength(extra, remainder, k - 1)
  }

  /** The second loop of the layout. The box is `required` columns wide, widened to
      the target width if narrower; the extra columns go to the three separators,
      evenly, with the remainder to the first ones. Every separator is spaces. */
  method Separators(widths: seq<nat>) returns (finalWidth: nat, separators: seq<string>)
    requires |widths| == COLUMNS
    ensures finalWidth == Max(Sum(widths) + SEPARATOR_COUNT * BASE_SEPARATOR_WIDTH, TARGET_BOX_WIDTH)
    ensures |separators| == SEPARATOR_COUNT
    ensures forall i | 0 <= i < SEPARATOR_COUNT ::
      |separators[i]| >= BASE_SEPARATOR_WIDTH && separators[i] == Spaces(|separators[i]|)
    ensures Sum(widths) + TotalLength(separators) == finalWidth
    ensures forall i, j | 0 <= i < j < SEPARATOR_COUNT ::
      |separators[j]| <= |separators[i]| <= |separators[j]| + 1
  {
    var required := Sum(widths) + SEPARATOR_COUNT * BASE_SEPARATOR_WIDTH;
    finalWidth := Max(required, TARGET_BOX_WIDTH);
    var totalPadding := finalWidth - required;
    var extraPerSeparator := totalPadding / SEPARATOR_COUNT;
    var remainder := totalPadding % SEPARATOR_COUNT;
    assert BASE_SEPARATOR == Spaces(BASE_SEPARATOR_WIDTH);
    separators := [];
    for i := 0 to SEPARATOR_COUNT
      invariant |separators| == i
      invariant forall j | 0 <= j < i :: separators[j] == Spaces(SeparatorLength(extraPerSeparator, remainder, j))
      invariant TotalLength(separators) == SeparatorsTotal(extraPerSeparator, remainder, i)
    {
      var extraPadding := if i < remainder then 1 else 0;
      var separator := BASE_SEPARATOR + Spaces(extraPerSeparator + extraPadding);
      SpacesAppend(BASE_SEPARATOR_WIDTH, extraPerSeparator + extraPadding);
      TotalLengthAppend(separators, separator);
      separators := separators + [separator];
    }
    SeparatorShapes(separators, extraPerSeparator, remainder);
    SeparatorsTotalAll(extraPerSeparator, remainder);
    DivideSpread(totalPadding);
  }

  /** Three even shares and the remainder make up the whole padding. */
  lemma DivideSpread(total: nat)
    ensures SEPARATOR_COUNT * (total / SEPARATOR_COUNT) + total % SEPARATOR_COUNT == total
    ensures total % SEPARATOR_COUNT < SEPARATOR_COUNT
  {
  }

  /** The three separators together take the base width three times, the even
      share three times and the remainder once. */
  lemma SeparatorsTotalAll(extra: nat, remainder: nat)
    requires remainder < SEPARATOR_COUNT
    ensures SeparatorsTotal(extra, remainder, SEPARATOR_COUNT)
      == SEPARATOR_COUNT * (BASE_SEPARATOR_WIDTH + extra) + remainder
  {
    assert SeparatorsTotal(extra, remainder, 1) == SeparatorLength(extra, remainder, 0);
    assert SeparatorsTotal(extra, remainder, 2)
      == SeparatorLength(extra, remainder, 0) + SeparatorLength(extra, remainder, 1);
  }

  lemma SeparatorShapes(separators: seq<string>, extra: nat, remainder: nat)
    requires |separators| == SEPARATOR_COUNT
    requires forall j | 0 <= j < SEPARATOR_COUNT :: separators[j] == Spaces(SeparatorLength(extra, remainder, j))
    ensures forall i | 0 <= i < SEPARATOR_COUNT ::
      |separators[i]| >= BASE_SEPARATOR_WIDTH && separators[i] == Spaces(|separators[i]|)
    ensures forall i, j | 0 <= i < j < SEPARATOR_COUNT ::
      |separators[j]| <= |separators[i]| <= |separators[j]| + 1
  {
  }

  lemma TotalLengthAppend(ss: seq<string>, s: string)
    ensures TotalLength(ss + [s]) == TotalLength(ss) + |s|
  {
    assert (ss + [s])[..|ss|] == ss;
  }

  /** Every cell of the row fits its column, so padding it never underflows. */
  predicate CellsFit(words: seq<string>, width: string -> nat, widths: seq<nat>, numRows: nat, row: nat) {
    |widths| == COLUMNS &&
    forall col: nat | col < COLUMNS :: width(CellText(words, numRows, row, col)) <= widths[col]
  }

  /** A cell's text padded with spaces to its column's width. */
  function PaddedCell(words: seq<string>, width: string -> nat, widths: seq<nat>, numRows: nat, row: nat, col: nat): string
    requires CellsFit(words, width, widths, numRows, row) && col < COLUMNS
  {
    var item := CellText(words, numRows, row, col);
    item + Spaces(widths[col] - width(item))
  }

  /** A padded cell is the cell's text followed by spaces up to the column width. */
  lemma PaddedCellLayout(words: seq<string>, width: string -> nat, widths: seq<nat>, numRows: nat, row: nat, col: nat)
    requires CellsFit(words, width, widths, numRows, row) && col < COLUMNS
    ensures var item, cell := CellText(words, numRows, row, col), PaddedCell(words, width, widths, numRows, row, col);
      && |cell| == |item| + widths[col] - width(item)
      && cell[..|item|] == item
      && (forall i | |item| <= i < |cell| :: cell[i] == ' ')
  {
  }

  /** The first `k` padded cells of a row, each but the last followed by its separator. */
  function RowText(words: seq<string>, width: string -> nat, widths: seq<nat>, separators: seq<string>,
                   numRows: nat, row: nat, k: nat): string
    requires CellsFit(words, width, widths, numRows, row) && |separators| == SEPARATOR_COUNT && k <= COLUMNS
  {
    if k == 0 then ""
    else
      RowText(words, width, widths, separators, numRows, row, k - 1)
      + PaddedCell(words, width, widths, numRows, row, k - 1)
      + (if k - 1 < SEPARATOR_COUNT then separators[k - 1] else "")
  }

  /** A row is built left to right: fewer cells give a prefix of the row. */
  lemma {:induction false} RowTextPrefix(words: seq<string>, width: string -> nat, widths: seq<nat>,
                                         separators: seq<string>, numRows: nat, row: nat, j: nat, k: nat)
    requires CellsFit(words, width, widths, numRows, row) && |separators| == SEPARATOR_COUNT && j <= k <= COLUMNS
    ensures RowText(words, width, widths, separators, numRows, row, j)
      <= RowText(words, width, widths, separators, numRows, row, k)
  {
    if j < k {
      RowTextPrefix(words, width, widths, separators, numRows, row, j, k - 1);
      RowTextExtends(words, width, widths, separators, numRows, row, k);
      PrefixTransitive(RowText(words, width, widths, separators, numRows, row, j),
                       RowText(words, width, widths, separators, numRows, row, k - 1),
                       RowText(words, width, widths, separators, numRows, row, k));
    }
  }

  lemma RowTextExtends(words: seq<string>, width: string -> nat, widths: seq<nat>,
                       separators: seq<string>, numRows: nat, row: nat, k: nat)
    requires CellsFit(words, width, widths, numRows, row) && |separators| == SEPARATOR_COUNT && 0 < k <= COLUMNS
    ensures RowText(words, width, widths, separators, numRows, row, k - 1)
      <= RowText(words, width, widths, separators, numRows, row, k)
  {
    var previous := RowText(words, width, widths, separators, numRows, row, k - 1);
    var rest := PaddedCell(words, width, widths, numRows, row, k - 1)
      + (if k - 1 < SEPARATOR_COUNT then separators[k - 1] else "");
    assert RowText(words, width, widths, separators, numRows, row, k) == previous + rest;
  }

  /** The row loop of the layout: the padded cells of one row, then the cells joined
      with their separators. */
  method RenderRow(words: seq<string>, width: string -> nat, widths: seq<nat>, separators: seq<string>,
                   numRows: nat, row: nat) returns (line: string)
    requires CellsFit(words, width, widths, numRows, row) && |separators| == SEPARATOR_COUNT
    ensures line == RowText(words, width, widths, separators, numRows, row, COLUMNS)
  {
    var parts: seq<string> := [];
    for col := 0 to COLUMNS
      invariant |parts| == col
      invariant forall c: nat | c < col :: parts[c] == PaddedCell(words, width, widths, numRows, row, c)
    {
      var index := row + col * numRows;
      var item := if index < |words| then ItemText(index, words[index]) else "";
      assert item == CellText(words, numRows, row, col);
      var itemWidth := width(item);
      parts := parts + [item + Spaces(widths[col] - itemWidth)];
    }
    line := "";
    for i := 0 to |parts|
      invariant line == RowText(words, width, widths, separators, numRows, row, i)
    {
      line := line + parts[i];
      if i < SEPARATOR_COUNT {
        line := line + separators[i];
      }
    }
  }

  /** A row is as wide as its column widths and separators together. */
  lemma {:induction false} RowTextWidth(words: seq<string>, width: string -> nat, widths: seq<nat>,
                                        separators: seq<string>, numRows: nat, row: nat, k: nat)
    requires TerminalWidth(width)
    requires CellsFit(words, width, widths, numRows, row) && |separators| == SEPARATOR_COUNT && k <= COLUMNS
    requires forall i | 0 <= i < SEPARATOR_COUNT :: separators[i] == Spaces(|separators[i]|)
    ensures width(RowText(words, width, widths, separators, numRows, row, k))
      == Sum(widths[..k]) + TotalLength(separators[..if k < SEPARATOR_COUNT then k else SEPARATOR_COUNT])
  {
    if k == 0 {
      WidthEmpty(width);
    } else {
      RowTextWidth(words, width, widths, separators, numRows, row, k - 1);
      RowTextStep(words, width, widths, separators, numRows, row, k);
      SumPrefixStep(widths, k);
      if k - 1 < SEPARATOR_COUNT {
        TotalLengthPrefixStep(separators, k);
      }
    }
  }

  lemma SumPrefixStep(s: seq<nat>, k: nat)
    requires 0 < k <= |s|
    ensures Sum(s[..k]) == Sum(s[..k - 1]) + s[k - 1]
  {
    assert s[..k][..k - 1] == s[..k - 1];
  }

  lemma TotalLengthPrefixStep(ss: seq<string>, k: nat)
    requires 0 < k <= |ss|
    ensures TotalLength(ss[..k]) == TotalLength(ss[..k - 1]) + |ss[k - 1]|
  {
    assert ss[..k][..k - 1] == ss[..k - 1];
  }

  /** One more cell (and its separator, if it has one) widens the row by exactly
      that much. */
  lemma RowTextStep(words: seq<string>, width: string -> nat, widths: seq<nat>,
                    separators: seq<string>, numRows: nat, row: nat, k: nat)
    requires TerminalWidth(width)
    requires CellsFit(words, width, widths, numRows, row) && |separators| == SEPARATOR_COUNT && 0 < k <= COLUMNS
    requires forall i | 0 <= i < SEPARATOR_COUNT :: separators[i] == Spaces(|separators[i]|)
    ensures width(RowText(words, width, widths, separators, numRows, row, k))
      == width(RowText(words, width, widths, separators, numRows, row, k - 1)) + widths[k - 1]
         + (if k - 1 < SEPARATOR_COUNT then |separators[k - 1]| else 0)
  {
    var prefix := RowText(words, width, widths, separators, numRows, row, k - 1);
    var cell := PaddedCell(words, width, widths, numRows, row, k - 1);
    var sep := if k - 1 < SEPARATOR_COUNT then separators[k - 1] else "";
    PaddedCellWidth(words, width, widths, numRows, row, k - 1);
    WidthAppend(width, prefix, cell);
    WidthAppend(width, prefix + cell, sep);
    if k - 1 < SEPARATOR_COUNT {
      WidthSpaces(width, |separators[k - 1]|);
    } else {
      WidthEmpty(width);
    }
  }

  /** A padded cell is exactly as wide as its column. */
  lemma PaddedCellWidth(words: seq<string>, width: string -> nat, widths: seq<nat>, numRows: nat, row: nat, col: nat)
    requires TerminalWidth(width)
    requires CellsFit(words, width, widths, numRows, row) && col < COLUMNS
    ensures width(PaddedCell(words, width, widths, numRows, row, col)) == widths[col]
  {
    var item := CellText(words, numRows, row, col);
    WidthSpaces(width, widths[col] - width(item));
    WidthAppend(width, item, Spaces(widths[col] - width(item)));
  }

  /** A full row line of the box: the row between the box's side borders. */
  function RowLine(words: seq<string>, width: string -> nat, widths: seq<nat>, separators: seq<string>,
                   numRows: nat, row: nat): string
    requires CellsFit(words, width, widths, numRows, row) && |separators| == SEPARATOR_COUNT
  {
    BoxRow(RowText(words, width, widths, separators, numRows, row, COLUMNS))
  }

  /** `a.saturating_sub(b)`. */
  function SaturatingSub(a: nat, b: nat): (d: nat)
    ensures a >= b ==> d + b == a
    ensures a < b ==> d == 0
  {
    if a >= b then a - b else 0
  }

  /** The left part of the header: corner, dash and ` your N word seed phrase `. */
  function HeaderStart(wordCount: nat): string {
    "┌─" + " your " + DecimalString(wordCount) + " word seed phrase "
  }

  /** The header, dashed out to the box width (no dashes if the title is too wide). */
  function HeaderLine(width: string -> nat, wordCount: nat, finalWidth: nat): (line: string)
    ensures HeaderStart(wordCount) <= line && line[|line| - 1] == '┐'
    ensures forall i | |HeaderStart(wordCount)| <= i < |line| - 1 :: line[i] == '─'
  {
    var header := HeaderStart(wordCount);
    header + Repeat('─', SaturatingSub(finalWidth + 4, width(header) + 1)) + "┐"
  }

  /** `format!("│ {} │", line)`. */
  function BoxRow(line: string): string {
    "│ " + line + " │"
  }

  /** The bottom border. */
  function BottomLine(finalWidth: nat): (line: string)
    ensures |line| == finalWidth + 4
    ensures line[0] == '└' && line[|line| - 1] == '┘'
    ensures forall i | 1 <= i < |line| - 1 :: line[i] == '─'
  {
    "└" + Repeat('─', finalWidth + 2) + "┘"
  }

  /** A boxed row is the row between `"│ "` and `" │"`. */
  lemma BoxRowLayout(line: string)
    ensures var boxed := BoxRow(line);
      |boxed| == |line| + 4 && boxed[..2] == "│ " && boxed[2..|boxed| - 2] == line && boxed[|boxed| - 2..] == " │"
  {
  }

  /** The header reaches exactly the box's right edge whenever its title fits. */
  lemma HeaderLineWidth(width: string -> nat, wordCount: nat, finalWidth: nat)
    requires TerminalWidth(width)
    ensures width(HeaderLine(width, wordCount, finalWidth)) == Max(finalWidth + 4, width(HeaderStart(wordCount)) + 1)
  {
    var header := HeaderStart(wordCount);
    var dashes := Repeat('─', SaturatingSub(finalWidth + 4, width(header) + 1));
    assert "─" == ['─'];
    WidthRepeat(width, '─', SaturatingSub(finalWidth + 4, width(header) + 1));
    WidthAppend(width, header, dashes);
    WidthAppend(width, header + dashes, "┐");
  }

  lemma BoxRowWidth(width: string -> nat, line: string)
    requires TerminalWidth(width)
    ensures width(BoxRow(line)) == width(line) + 4
  {
    WidthAppend(width, "│", " ");
    assert "│ " == "│" + " ";
    WidthAppend(width, " ", "│");
    assert " │" == " " + "│";
    WidthAppend(width, "│ ", line);
    WidthAppend(width, "│ " + line, " │");
  }

  lemma BottomLineWidth(width: string -> nat, finalWidth: nat)
    requires TerminalWidth(width)
    ensures width(BottomLine(finalWidth)) == finalWidth + 4
  {
    assert "─" == ['─'];
    WidthRepeat(width, '─', finalWidth + 2);
    WidthAppend(width, "└", Repeat('─', finalWidth + 2));
    WidthAppend(width, "└" + Repeat('─', finalWidth + 2), "┘");
  }

  /** The widths found by `ColumnWidths` fit every cell, the empty ones too. */
  lemma ColumnWidthsFit(words: seq<string>, width: string -> nat, widths: seq<nat>)
    requires width("") == 0 && |widths| == COLUMNS
    requires var numRows := NumRows(|words|);
      forall row: nat, col: nat | row < numRows && col < COLUMNS && CellIndex(numRows, row, col) < |words| ::
        width(CellText(words, numRows, row, col)) <= widths[col]
    ensures forall row: nat | row < NumRows(|words|) :: CellsFit(words, width, widths, NumRows(|words|), row)
  {
    var numRows := NumRows(|words|);
    forall row: nat | row < numRows
      ensures CellsFit(words, width, widths, numRows, row)
    {
      forall col: nat | col < COLUMNS
        ensures width(CellText(words, numRows, row, col)) <= widths[col]
      {
      }
    }
  }

  /** The row loop of the box: one boxed line per grid row. */
  method RenderRows(words: seq<string>, width: string -> nat, widths: seq<nat>, separators: seq<string>,
                    numRows: nat) returns (rowLines: seq<string>)
    requires |separators| == SEPARATOR_COUNT
    requires forall row: nat | row < numRows :: CellsFit(words, width, widths, numRows, row)
    ensures |rowLines| == numRows
    ensures forall r: nat | r < numRows :: rowLines[r] == RowLine(words, width, widths, separators, numRows, r)
  {
    rowLines := [];
    for row := 0 to numRows
      invariant |rowLines| == row
      invariant forall r: nat | r < row :: rowLines[r] == RowLine(words, width, widths, separators, numRows, r)
    {
      var line := RenderRow(words, width, widths, separators, numRows, row);
      rowLines := rowLines + [BoxRow(line)];
    }
  }

  /** The whole word box of `print_mnemonic_with_info`: header, one line per row,
      bottom border. Every cell fits its column, and with a width function that
      adds up, every line of the box is `finalWidth + 4` columns wide, the header
      too whenever its title fits. */
  method RenderWordBox(words: seq<string>, width: string -> nat, wordCount: nat)
    returns (lines: seq<string>, widths: seq<nat>, separators: seq<string>, finalWidth: nat)
    requires width("") == 0
    ensures |widths| == COLUMNS && |separators| == SEPARATOR_COUNT
    ensures var numRows := NumRows(|words|);
      forall col: nat | col < COLUMNS ::
        widths[col] == 0 ||
        exists row: nat | row < numRows && CellIndex(numRows, row, col) < |words| ::
          widths[col] == width(CellText(words, numRows, row, col))
    ensures finalWidth == Max(Sum(widths) + SEPARATOR_COUNT * BASE_SEPARATOR_WIDTH, TARGET_BOX_WIDTH)
    ensures forall i | 0 <= i < SEPARATOR_COUNT ::
      |separators[i]| >= BASE_SEPARATOR_WIDTH && separators[i] == Spaces(|separators[i]|)
    ensures forall i, j | 0 <= i < j < SEPARATOR_COUNT ::
      |separators[j]| <= |separators[i]| <= |separators[j]| + 1
    ensures Sum(widths) + TotalLength(separators) == finalWidth
    ensures |lines| == NumRows(|words|) + 2
    ensures lines[0] == HeaderLine(width, wordCount, finalWidth)
    ensures forall row: nat | row < NumRows(|words|) ::
      && CellsFit(words, width, widths, NumRows(|words|), row)
      && lines[row + 1] == RowLine(words, width, widths, separators, NumRows(|words|), row)
    ensures lines[|lines| - 1] == BottomLine(finalWidth)
    ensures TerminalWidth(width) ==> forall i | 1 <= i < |lines| :: width(lines[i]) == finalWidth + 4
    ensures TerminalWidth(width) && width(HeaderStart(wordCount)) + 1 <= finalWidth + 4 ==>
      width(lines[0]) == finalWidth + 4
  {
    var numRows := NumRows(|words|);
    widths := ColumnWidths(words, width);
    finalWidth, separators := Separators(widths);
    ColumnWidthsFit(words, width, widths);
    var rowLines := RenderRows(words, width, widths, separators, numRows);
    lines := [HeaderLine(width, wordCount, finalWidth)] + rowLines + [BottomLine(finalWidth)];
    assert forall r: nat | r < numRows :: lines[r + 1] == rowLines[r];
    WordBoxWidths(words, width, wordCount, lines, widths, separators, finalWidth);
  }

  lemma WordBoxWidths(words: seq<string>, width: string -> nat, wordCount: nat,
                      lines: seq<string>, widths: seq<nat>, separators: seq<string>, finalWidth: nat)
    requires |widths| == COLUMNS && |separators| == SEPARATOR_COUNT
    requires forall i | 0 <= i < SEPARATOR_COUNT :: separators[i] == Spaces(|separators[i]|)
    requires Sum(widths) + TotalLength(separators) == finalWidth
    requires |lines| == NumRows(|words|) + 2
    requires lines[0] == HeaderLine(width, wordCount, finalWidth)
    requires forall row: nat | row < NumRows(|words|) ::
      && CellsFit(words, width, widths, NumRows(|words|), row)
      && lines[row + 1] == RowLine(words, width, widths, separators, NumRows(|words|), row)
    requires lines[|lines| - 1] == BottomLine(finalWidth)
    ensures TerminalWidth(width) ==> forall i | 1 <= i < |lines| :: width(lines[i]) == finalWidth + 4
    ensures TerminalWidth(width) && width(HeaderStart(wordCount)) + 1 <= finalWidth + 4 ==>
      width(lines[0]) == finalWidth + 4
  {
    if TerminalWidth(width) {
      BodyLineWidths(words, width, lines, widths, separators, finalWidth);
      HeaderLineWidth(width, wordCount, finalWidth);
    }
  }

  /** The row lines and the bottom border are all `finalWidth + 4` wide. */
  lemma BodyLineWidths(words: seq<string>, width: string -> nat,
                       lines: seq<string>, widths: seq<nat>, separators: seq<string>, finalWidth: nat)
    requires TerminalWidth(width)
    requires |widths| == COLUMNS && |separators| == SEPARATOR_COUNT
    requires forall i | 0 <= i < SEPARATOR_COUNT :: separators[i] == Spaces(|separators[i]|)
    requires Sum(widths) + TotalLength(separators) == finalWidth
    requires |lines| == NumRows(|words|) + 2
    requires forall row: nat | row < NumRows(|words|) ::
      && CellsFit(words, width, widths, NumRows(|words|), row)
      && lines[row + 1] == RowLine(words, width, widths, separators, NumRows(|words|), row)
    requires lines[|lines| - 1] == BottomLine(finalWidth)
    ensures forall i | 1 <= i < |lines| :: width(lines[i]) == finalWidth + 4
  {
    forall i | 1 <= i < |lines|
      ensures width(lines[i]) == finalWidth + 4
    {
      if i == |lines| - 1 {
        BottomLineWidth(width, finalWidth);
      } else {
        var row: nat := i - 1;
        assert CellsFit(words, width, widths, NumRows(|words|), row);
        RowLineWidth(words, width, widths, separators, NumRows(|words|), row);
      }
    }
  }

  /** A boxed row line is its row plus the two borders. */
  lemma RowLineWidth(words: seq<string>, width: string -> nat, widths: seq<nat>,
                     separators: seq<string>, numRows: nat, row: nat)
    requires TerminalWidth(width)
    requires CellsFit(words, width, widths, numRows, row) && |separators| == SEPARATOR_COUNT
    requires forall i | 0 <= i < SEPARATOR_COUNT :: separators[i] == Spaces(|separators[i]|)
    ensures width(RowLine(words, width, widths, separators, numRows, row)) == Sum(widths) + TotalLength(separators) + 4
  {
    BoxRowWidth(width, RowText(words, width, widths, separators, numRows, row, COLUMNS));
    RowTextWidth(words, width, widths, separators, numRows, row, COLUMNS);
    assert widths[..COLUMNS] == widths && separators[..SEPARATOR_COUNT] == separators;
  }
}
