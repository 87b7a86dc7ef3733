/** Terminal text helpers shared by the word grid and the QR renderer: repeated
    characters, sums of widths, and what the model assumes about display width. */
module Display {

  /** Inner width, in columns, that every box drawn by the tool is widened to. */
  const TARGET_BOX_WIDTH: nat := 63

  /** `c.to_string().repeat(k)`: `k` copies of `c`. */
  function Repeat(c: char, k: nat): (s: string)
    ensures |s| == k
    ensures forall i :: 0 <= i < k ==> s[i] == c
  {
    if k == 0 then [] else Repeat(c, k - 1) + [c]
  }

  /** `" ".repeat(k)`. */
  function Spaces(k: nat): (s: string)
    ensures |s| == k
    ensures forall i :: 0 <= i < k ==> s[i] == ' '
  {
    Repeat(' ', k)
  }

  /** Two runs of spaces make one. */
  lemma SpacesAppend(a: nat, b: nat)
    ensures Spaces(a) + Spaces(b) == Spaces(a + b)
  {
    assert forall i | 0 <= i < a + b :: (Spaces(a) + Spaces(b))[i] == ' ';
  }

  /** The outer parts of a three-part concatenation are its prefix and suffix. */
  lemma ConcatSlices(a: string, m: string, b: string)
    ensures (a + m + b)[..|a|] == a && (a + m + b)[|a| + |m|..] == b
  {
  }

  lemma PrefixTransitive(a: string, b: string, c: string)
    requires a <= b && b <= c
    ensures a <= c
  {
    assert a == b[..|a|] == c[..|b|][..|a|];
  }

  function Max(a: nat, b: nat): (m: nat)
    ensures m >= a && m >= b && (m == a || m == b)
  {
    if a >= b then a else b
  }

  /** Multiplying by the same factor keeps the order. */
  lemma MulMonotone(a: nat, b: nat, k: nat)
    requires a <= b
    ensures a * k <= b * k
  {
  }

  /** `iter().sum()` of a sequence of column widths. */
  function Sum(s: seq<nat>): nat {
    if s == [] then 0 else Sum(s[..|s| - 1]) + s[|s| - 1]
  }

  /** The total number of characters of a sequence of strings. */
  function TotalLength(ss: seq<string>): nat {
    if ss == [] then 0 else TotalLength(ss[..|ss| - 1]) + |ss[|ss| - 1]|
  }

  /** String concatenation, named so that the width assumption below is used only
      where a proof asks for it. */
  function Join(a: string, b: string): string {
    a + b
  }

  /** What the layout relies on about the terminal width function
      (`UnicodeWidthStr::width`): widths add up when strings are joined (the width
      of a string is the sum of the widths of its characters), and the space and
      the box-drawing characters the tool draws with are one column wide. */
  ghost predicate TerminalWidth(width: string -> nat) {
    && (forall a: string, b: string :: width(Join(a, b)) == width(a) + width(b))
    && width(" ") == 1
    && width("│") == 1 && width("─") == 1
    && width("┌") == 1 && width("┐") == 1
    && width("└") == 1 && width("┘") == 1
  }

  lemma WidthAppend(width: string -> nat, a: string, b: string)
    requires TerminalWidth(width)
    ensures width(a + b) == width(a) + width(b)
  {
    assert width(Join(a, b)) == width(a) + width(b);
  }

  /** The empty string takes no columns. */
  lemma WidthEmpty(width: string -> nat)
    requires TerminalWidth(width)
    ensures width("") == 0
  {
    WidthAppend(width, "", "");
    assert "" + "" == "";
  }

  /** `k` copies of a one-column character are `k` columns wide. */
  lemma {:induction false} WidthRepeat(width: string -> nat, c: char, k: nat)
    requires TerminalWidth(width) && width([c]) == 1
    ensures width(Repeat(c, k)) == k
  {
    if k == 0 {
      WidthEmpty(width);
    } else {
      WidthRepeat(width, c, k - 1);
      WidthAppend(width, Repeat(c, k - 1), [c]);
    }
  }

  lemma WidthSpaces(width: string -> nat, k: nat)
    requires TerminalWidth(width)
    ensures width(Spaces(k)) == k
  {
    assert [' '] == " ";
    WidthRepeat(width, ' ', k);
  }
}
