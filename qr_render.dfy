/** The terminal QR code of `print_qr_code`: two module rows folded into one line
    of half-block glyphs, a two-module quiet zone, and a box centred to at least the
    target width. The QR symbol itself (its `width` and its `width * width` dark or
    light modules, row by row) is given. Every character drawn is one column wide,
    so widths are counted in characters. */
module QrRender {
  import opened Display

  const QUIET_ZONE_MODULES: nat := 2
  const TOP_BOTTOM_PADDING_LINES: nat := QUIET_ZONE_MODULES / 2
  const TITLE: string := "qr code for mobile import"

  const FULL_BLOCK: char := '█'
  const UPPER_HALF: char := '▀'
  const LOWER_HALF: char := '▄'

  /** The glyph showing a dark or light top module over a dark or light bottom one. */
  function Glyph(top: bool, bottom: bool): (c: char)
    ensures c == FULL_BLOCK <==> top && bottom
    ensures c == ' ' <==> !top && !bottom
    ensures c == UPPER_HALF <==> top && !bottom
    ensures c == LOWER_HALF <==> !top && bottom
  {
    match (top, bottom)
    case (true, true) => FULL_BLOCK
    case (false, false) => ' '
    case (true, false) => UPPER_HALF
    case (false, true) => LOWER_HALF
  }

  lemma GridIndexInRange(width: nat, y: nat, x: nat)
    requires y < width && x < width
    ensures y * width + x < width * width
  {
    assert (y + 1) * width <= width * width by {
      MulMonotone(y + 1, width, width);
    }
  }

  /** Module (x, y) of the symbol; rows below the symbol count as light. */
  function ModuleAt(grid: seq<bool>, width: nat, y: nat, x: nat): (dark: bool)
    requires |grid| == width * width && x < width
    ensures y < width ==> y * width + x < |grid| && dark == grid[y * width + x]
    ensures y >= width ==> !dark
  {
    if y < width then GridIndexInRange(width, y, x); grid[y * width + x] else false
  }

  /** The glyph in column `x` of glyph line `k`: module rows `2k` and `2k + 1`. On
      the last line of a symbol with an odd number of rows only upper halves and
      blanks appear. */
  function GlyphAt(grid: seq<bool>, width: nat, k: nat, x: nat): (c: char)
    requires |grid| == width * width && x < width
    ensures c == FULL_BLOCK <==> ModuleAt(grid, width, 2 * k, x) && ModuleAt(grid, width, 2 * k + 1, x)
    ensures c == ' ' <==> !ModuleAt(grid, width, 2 * k, x) && !ModuleAt(grid, width, 2 * k + 1, x)
    ensures 2 * k + 1 >= width ==> c == UPPER_HALF || c == ' '
  {
    Glyph(ModuleAt(grid, width, 2 * k, x), ModuleAt(grid, width, 2 * k + 1, x))
  }

  /** The `for y in (0..width).step_by(2)` loop: one line per pair of module rows,
      each glyph chosen by the two modules above each other, the line framed by the
      quiet zone on both sides. */
  method GlyphLines(grid: seq<bool>, width: nat) returns (rows: seq<string>)
    requires |grid| == width * width
    ensures |rows| == (width + 1) / 2
    ensures forall k | 0 <= k < |rows| ::
      && |rows[k]| == width + 2 * QUIET_ZONE_MODULES
      && rows[k][..QUIET_ZONE_MODULES] == Spaces(QUIET_ZONE_MODULES)
      && rows[k][QUIET_ZONE_MODULES + width..] == Spaces(QUIET_ZONE_MODULES)
    ensures forall k: nat, x: nat | k < |rows| && x < width ::
      rows[k][QUIET_ZONE_MODULES + x] == GlyphAt(grid, width, k, x)
  {
    rows := [];
    var y := 0;
    while y < width
      invariant y == 2 * |rows| && y <= width + 1
      invariant forall k | 0 <= k < |rows| ::
        && |rows[k]| == width + 2 * QUIET_ZONE_MODULES
        && rows[k][..QUIET_ZONE_MODULES] == Spaces(QUIET_ZONE_MODULES)
        && rows[k][QUIET_ZONE_MODULES + width..] == Spaces(QUIET_ZONE_MODULES)
      invariant forall k: nat, x: nat | k < |rows| && x < width ::
        rows[k][QUIET_ZONE_MODULES + x] == GlyphAt(grid, width, k, x)
      decreases width - y
    {
      var line := Spaces(QUIET_ZONE_MODULES);
      for x := 0 to width
        invariant |line| == QUIET_ZONE_MODULES + x
        invariant line[..QUIET_ZONE_MODULES] == Spaces(QUIET_ZONE_MODULES)
        invariant forall i: nat | i < x :: line[QUIET_ZONE_MODULES + i] == GlyphAt(grid, width, y / 2, i)
      {
        GridIndexInRange(width, y, x);
        var topIsDark := grid[y * width + x];
        var bottomIsDark := false;
        if y + 1 < width {
          GridIndexInRange(width, y + 1, x);
          bottomIsDark := grid[(y + 1) * width + x];
        }
        line := line + [Glyph(topIsDark, bottomIsDark)];
      }
      line := line + Spaces(QUIET_ZONE_MODULES);
      rows := rows + [line];
      y := y + 2;
    }
  }

  /** Inner width of the box: the target width, or wider if the code needs it. */
  function BoxInnerWidth(width: nat): (inner: nat)
    ensures inner >= TARGET_BOX_WIDTH && inner >= width + 2 * QUIET_ZONE_MODULES
    ensures inner == TARGET_BOX_WIDTH || inner == width + 2 * QUIET_ZONE_MODULES
  {
    Max(TARGET_BOX_WIDTH, width + 2 * QUIET_ZONE_MODULES)
  }

  /** Left and right padding that centre the framed code in the box: together they
      fill the box, and the right one is the left one or one more. */
  function Padding(width: nat): (p: (nat, nat))
    ensures p.0 + p.1 + width + 2 * QUIET_ZONE_MODULES == BoxInnerWidth(width)
    ensures p.0 <= p.1 <= p.0 + 1
  {
    var total := BoxInnerWidth(width) - (width + 2 * QUIET_ZONE_MODULES);
    (total / 2, total - total / 2)
  }

  /** A content line of the box: borders, left padding, `content`, right padding.
      Content as wide as the framed code fills the box exactly. */
  function Framed(width: nat, content: string): (line: string)
    ensures |line| == Padding(width).0 + |content| + Padding(width).1 + 4
    ensures |content| == width + 2 * QUIET_ZONE_MODULES ==> |line| == BoxInnerWidth(width) + 4
  {
    "│ " + Spaces(Padding(width).0) + content + Spaces(Padding(width).1) + " │"
  }

  /** Where things sit on a framed line: the borders at both ends, `content` after
      the left padding, blanks on either side of it. */
  lemma FramedLayout(width: nat, content: string)
    ensures var line, left, right := Framed(width, content), Padding(width).0, Padding(width).1;
      && line[..2] == "│ " && line[|line| - 2..] == " │"
      && (forall i | 2 <= i < 2 + left :: line[i] == ' ')
      && line[2 + left..2 + left + |content|] == content
      && (forall i | |line| - 2 - right <= i < |line| - 2 :: line[i] == ' ')
  {
  }

  /** The title line: the title, a space and dashes, as wide as the other lines. */
  function TitleLine(width: nat): (line: string)
    ensures |line| == BoxInnerWidth(width) + 4
    ensures line[..3 + |TITLE|] == "┌─ " + TITLE
    ensures line[3 + |TITLE|] == ' '
    ensures line[|line| - 2..] == "─┐"
    ensures forall i | 4 + |TITLE| <= i < |line| - 1 :: line[i] == '─'
  {
    "┌─ " + TITLE + " " + Repeat('─', BoxInnerWidth(width) - 2 - |TITLE|) + "─┐"
  }

  /** The bottom border: corners and dashes, as wide as the other lines. */
  function BottomBorder(width: nat): (line: string)
    ensures |line| == BoxInnerWidth(width) + 4
    ensures line[0] == '└' && line[|line| - 1] == '┘'
    ensures forall i | 1 <= i < |line| - 1 :: line[i] == '─'
  {
    "└" + Repeat('─', BoxInnerWidth(width) + 2) + "┘"
  }

  /** `print_qr_code` once the symbol exists: a blank line, the title line, a padding
      line, the glyph lines, a padding line and the bottom border. Every line but the
      blank one is `BoxInnerWidth(width) + 4` characters, and the glyph for module
      rows `2k`, `2k + 1` in column `x` sits at the same column of every glyph line,
      after the border, the centring and the quiet zone. */
  method RenderQrBox(grid: seq<bool>, width: nat) returns (lines: seq<string>)
    requires |grid| == width * width
    ensures |lines| == (width + 1) / 2 + 3 + 2 * TOP_BOTTOM_PADDING_LINES
    ensures lines[0] == "" && lines[1] == TitleLine(width)
    ensures lines[2] == Framed(width, Spaces(width + 2 * QUIET_ZONE_MODULES))
    ensures lines[|lines| - 2] == Framed(width, Spaces(width + 2 * QUIET_ZONE_MODULES))
    ensures lines[|lines| - 1] == BottomBorder(width)
    ensures forall i | 1 <= i < |lines| :: |lines[i]| == BoxInnerWidth(width) + 4
    ensures forall k: nat, x: nat | k < (width + 1) / 2 && x < width ::
      lines[3 + k][2 + Padding(width).0 + QUIET_ZONE_MODULES + x] == GlyphAt(grid, width, k, x)
    ensures forall i | 3 <= i < 3 + (width + 1) / 2 ::
      && |lines[i]| == BoxInnerWidth(width) + 4
      && lines[i][..2 + Padding(width).0 + QUIET_ZONE_MODULES]
         == "│ " + Spaces(Padding(width).0 + QUIET_ZONE_MODULES)
      && lines[i][2 + Padding(width).0 + QUIET_ZONE_MODULES + width..]
         == Spaces(QUIET_ZONE_MODULES + Padding(width).1) + " │"
  {
    var emptyLine := Spaces(width + 2 * QUIET_ZONE_MODULES);
    var rows := GlyphLines(grid, width);
    var framedRows: seq<string> := [];
    for k := 0 to |rows|
      invariant |framedRows| == k
      invariant forall j | 0 <= j < k :: framedRows[j] == Framed(width, rows[j])
    {
      framedRows := framedRows + [Framed(width, rows[k])];
    }
    lines := ["", TitleLine(width), Framed(width, emptyLine)] + framedRows
      + [Framed(width, emptyLine), BottomBorder(width)];
    QrBoxShape(grid, width, rows, framedRows, lines);
    assert forall i | 3 <= i < 3 + |rows| :: lines[i] == framedRows[i - 3];
    QrGlyphLineBorders(width, rows, framedRows, lines);
  }

  lemma QrBoxShape(grid: seq<bool>, width: nat, rows: seq<string>, framedRows: seq<string>, lines: seq<string>)
    requires |grid| == width * width
    requires |rows| == (width + 1) / 2
    requires forall k | 0 <= k < |rows| :: |rows[k]| == width + 2 * QUIET_ZONE_MODULES
    requires forall k: nat, x: nat | k < |rows| && x < width ::
      rows[k][QUIET_ZONE_MODULES + x] == GlyphAt(grid, width, k, x)
    requires |framedRows| == |rows|
    requires forall j | 0 <= j < |rows| :: framedRows[j] == Framed(width, rows[j])
    requires lines == ["", TitleLine(width), Framed(width, Spaces(width + 2 * QUIET_ZONE_MODULES))] + framedRows
      + [Framed(width, Spaces(width + 2 * QUIET_ZONE_MODULES)), BottomBorder(width)]
    ensures forall i | 1 <= i < |lines| :: |lines[i]| == BoxInnerWidth(width) + 4
    ensures forall k: nat, x: nat | k < (width + 1) / 2 && x < width ::
      lines[3 + k][2 + Padding(width).0 + QUIET_ZONE_MODULES + x] == GlyphAt(grid, width, k, x)
  {
    forall i | 1 <= i < |lines|
      ensures |lines[i]| == BoxInnerWidth(width) + 4
    {
      if 3 <= i < 3 + |rows| {
        assert lines[i] == framedRows[i - 3];
      }
    }
    forall k: nat, x: nat | k < (width + 1) / 2 && x < width
      ensures lines[3 + k][2 + Padding(width).0 + QUIET_ZONE_MODULES + x] == GlyphAt(grid, width, k, x)
    {
      assert lines[3 + k] == framedRows[k];
      var left := Spaces(Padding(width).0);
      assert framedRows[k] == "│ " + left + rows[k] + Spaces(Padding(width).1) + " │";
      assert rows[k][QUIET_ZONE_MODULES + x] == GlyphAt(grid, width, k, x);
    }
  }

  /** Every glyph line is border and blanks before its first glyph and after its last. */
  lemma QrGlyphLineBorders(width: nat, rows: seq<string>, framedRows: seq<string>, lines: seq<string>)
    requires |rows| == (width + 1) / 2
    requires forall k | 0 <= k < |rows| ::
      && |rows[k]| == width + 2 * QUIET_ZONE_MODULES
      && rows[k][..QUIET_ZONE_MODULES] == Spaces(QUIET_ZONE_MODULES)
      && rows[k][QUIET_ZONE_MODULES + width..] == Spaces(QUIET_ZONE_MODULES)
    requires |framedRows| == |rows|
    requires forall j | 0 <= j < |rows| :: framedRows[j] == Framed(width, rows[j])
    requires |lines| >= 3 + |rows|
    requires forall i | 3 <= i < 3 + |rows| :: lines[i] == framedRows[i - 3]
    ensures forall i | 3 <= i < 3 + (width + 1) / 2 ::
      && |lines[i]| == BoxInnerWidth(width) + 4
      && lines[i][..2 + Padding(width).0 + QUIET_ZONE_MODULES]
         == "│ " + Spaces(Padding(width).0 + QUIET_ZONE_MODULES)
      && lines[i][2 + Padding(width).0 + QUIET_ZONE_MODULES + width..]
         == Spaces(QUIET_ZONE_MODULES + Padding(width).1) + " │"
  {
    forall i | 3 <= i < 3 + (width + 1) / 2
      ensures lines[i][..2 + Padding(width).0 + QUIET_ZONE_MODULES]
        == "│ " + Spaces(Padding(width).0 + QUIET_ZONE_MODULES)
      ensures lines[i][2 + Padding(width).0 + QUIET_ZONE_MODULES + width..]
        == Spaces(QUIET_ZONE_MODULES + Padding(width).1) + " │"
    {
      FramedGlyphLine(width, rows[i - 3]);
    }
  }

  /** A framed glyph line is border and blanks up to the first glyph, and blanks
      and border after the last: the centring padding joins the quiet zone. */
  lemma FramedGlyphLine(width: nat, row: string)
    requires |row| == width + 2 * QUIET_ZONE_MODULES
    requires row[..QUIET_ZONE_MODULES] == Spaces(QUIET_ZONE_MODULES)
    requires row[QUIET_ZONE_MODULES + width..] == Spaces(QUIET_ZONE_MODULES)
    ensures Framed(width, row)[..2 + Padding(width).0 + QUIET_ZONE_MODULES]
      == "│ " + Spaces(Padding(width).0 + QUIET_ZONE_MODULES)
    ensures Framed(width, row)[2 + Padding(width).0 + QUIET_ZONE_MODULES + width..]
      == Spaces(QUIET_ZONE_MODULES + Padding(width).1) + " │"
  {
    var left, right := Padding(width).0, Padding(width).1;
    var before := "│ " + Spaces(left + QUIET_ZONE_MODULES);
    var mid := row[QUIET_ZONE_MODULES..QUIET_ZONE_MODULES + width];
    var after := Spaces(QUIET_ZONE_MODULES + right) + " │";
    FramedSplit(width, row);
    ConcatSlices(before, mid, after);
  }

  /** The centring padding and the quiet zone of a glyph line run together. */
  lemma FramedSplit(width: nat, row: string)
    requires |row| == width + 2 * QUIET_ZONE_MODULES
    requires row[..QUIET_ZONE_MODULES] == Spaces(QUIET_ZONE_MODULES)
    requires row[QUIET_ZONE_MODULES + width..] == Spaces(QUIET_ZONE_MODULES)
    ensures Framed(width, row)
      == ("│ " + Spaces(Padding(width).0 + QUIET_ZONE_MODULES))
         + row[QUIET_ZONE_MODULES..QUIET_ZONE_MODULES + width]
         + (Spaces(QUIET_ZONE_MODULES + Padding(width).1) + " │")
  {
    var left, right := Padding(width).0, Padding(width).1;
    var mid := row[QUIET_ZONE_MODULES..QUIET_ZONE_MODULES + width];
    assert row == Spaces(QUIET_ZONE_MODULES) + mid + Spaces(QUIET_ZONE_MODULES) by {
      assert row == row[..QUIET_ZONE_MODULES] + mid + row[QUIET_ZONE_MODULES + width..];
    }
    Regroup("│ ", Spaces(left), Spaces(QUIET_ZONE_MODULES), mid, Spaces(QUIET_ZONE_MODULES), Spaces(right), " │");
    SpacesAppend(left, QUIET_ZONE_MODULES);
    SpacesAppend(QUIET_ZONE_MODULES, right);
  }

  lemma Regroup(p: string, l: string, s1: string, m: string, s2: string, r: string, q: string)
    ensures p + l + (s1 + m + s2) + r + q == (p + (l + s1)) + m + ((s2 + r) + q)
  {
  }
}
