/** What one pass of the picker draws, as a list of records instead of
    ncurses calls: one rank label and one entry line per visible match, then
    the prompt, then the cursor position. */
module Screen {
  import opened Text
  import opened Icons

  /** `mvprintw(row, col, text)` under `COLOR_PAIR(pair)` (and `A_BOLD` when
      `bold`), or `move(row, col)`. */
  datatype Draw =
    | Print(row: int, col: int, text: string, pair: int, bold: bool)
    | Cursor(row: int, col: int)

  /** Colour pair of the rank labels (bold grey). */
  const LabelPair := 8
  /** Colour pair of the prompt line (bold yellow). */
  const PromptPair := 99
  /** Column where the entry text starts, after the two-digit label. */
  const EntryColumn := 3
  const Prompt := "~> "

  /** `color_ids` as the constructor fills it: the pair numbers 1..8. */
  const ColorIds: seq<int> := [1, 2, 3, 4, 5, 6, 7, 8]

  /** The text drawn at column 3: `" %s %s"` of glyph and entry, or `" %s"`. */
  function EntryText(entry: string, showIcons: bool): (text: string)
    ensures showIcons ==> text == " " + Icon(entry) + " " + entry
    ensures !showIcons ==> text == " " + entry
  {
    if showIcons then " " + Icon(entry) + " " + entry else " " + entry
  }

  /** How many result rows fit above the prompt. */
  function VisibleRows(matches: seq<string>, rows: int): (n: nat)
    requires rows >= 1
    ensures n <= |matches| && n <= rows - 1
    ensures n == |matches| || n == rows - 1
  {
    if |matches| < rows - 1 then |matches| else rows - 1
  }

  /** The two records of result row `i`. */
  function ResultRow(i: nat, entry: string, showIcons: bool, colorIds: seq<int>): (r: seq<Draw>)
    requires |colorIds| > 0
    ensures |r| == 2
    ensures r[0].Print? && r[0].row == i && r[1].Print? && r[1].row == i
  {
    [ Print(i, 0, Rank(i + 1), LabelPair, true),
      Print(i, EntryColumn, EntryText(entry, showIcons), colorIds[i % |colorIds|] - 1, false) ]
  }

  /** The records of the first `n` result rows, top to bottom. */
  function ResultRows(matches: seq<string>, n: nat, showIcons: bool, colorIds: seq<int>): (ds: seq<Draw>)
    requires n <= |matches| && |colorIds| > 0
    ensures |ds| == 2 * n
  {
    if n == 0 then []
    else ResultRows(matches, n - 1, showIcons, colorIds) + ResultRow(n - 1, matches[n - 1], showIcons, colorIds)
  }

  /** One more row appends that row's two records. */
  lemma ResultRowsNext(matches: seq<string>, i: nat, showIcons: bool, colorIds: seq<int>)
    requires i < |matches| && |colorIds| > 0
    ensures ResultRows(matches, i + 1, showIcons, colorIds) ==
      ResultRows(matches, i, showIcons, colorIds)
        + [ Print(i, 0, Rank(i + 1), LabelPair, true),
            Print(i, EntryColumn, EntryText(matches[i], showIcons), colorIds[i % |colorIds|] - 1, false) ]
  {
  }

  /** Everything one pass draws, in drawing order. */
  function Frame(matches: seq<string>, input: string, rows: int, showIcons: bool, colorIds: seq<int>): (f: seq<Draw>)
    requires rows >= 1 && |colorIds| > 0
    ensures |f| == 2 * VisibleRows(matches, rows) + 2
    ensures f[|f| - 1] == Cursor(rows - 1, |Prompt| + |input|)
  {
    ResultRows(matches, VisibleRows(matches, rows), showIcons, colorIds)
      + [ Print(rows - 1, 0, Prompt + input, PromptPair, true),
          Cursor(rows - 1, |Prompt| + |input|) ]
  }

  /** Records `2i` and `2i+1` of the first `n` rows are those of row `i`. */
  lemma {:induction false} ResultRowsAt(matches: seq<string>, n: nat, showIcons: bool, colorIds: seq<int>, i: nat)
    requires n <= |matches| && |colorIds| > 0 && i < n
    ensures ResultRows(matches, n, showIcons, colorIds)[2 * i] == ResultRow(i, matches[i], showIcons, colorIds)[0]
    ensures ResultRows(matches, n, showIcons, colorIds)[2 * i + 1] == ResultRow(i, matches[i], showIcons, colorIds)[1]
  {
    var prev := ResultRows(matches, n - 1, showIcons, colorIds);
    var last := ResultRow(n - 1, matches[n - 1], showIcons, colorIds);
    var rs := ResultRows(matches, n, showIcons, colorIds);
    assert rs == prev + last;
    if i < n - 1 {
      ResultRowsAt(matches, n - 1, showIcons, colorIds, i);
      assert rs[2 * i] == prev[2 * i] && rs[2 * i + 1] == prev[2 * i + 1];
    } else {
      assert rs[2 * i] == last[0] && rs[2 * i + 1] == last[1];
    }
  }

  /** Result row `i` of a frame drawn with the palette `ColorIds`: the label
      `i+1` in the label pair, then the entry in colour pair `i mod 8`. */
  lemma FrameRow(matches: seq<string>, input: string, rows: int, showIcons: bool, i: nat)
    requires rows >= 1 && i < VisibleRows(matches, rows)
    ensures var f := Frame(matches, input, rows, showIcons, ColorIds);
      && f[2 * i] == Print(i, 0, Rank(i + 1), LabelPair, true)
      && f[2 * i + 1] == Print(i, EntryColumn, EntryText(matches[i], showIcons), i % 8, false)
  {
    var n := VisibleRows(matches, rows);
    var rs := ResultRows(matches, n, showIcons, ColorIds);
    ResultRowsAt(matches, n, showIcons, ColorIds, i);
    assert ColorIds[i % 8] - 1 == i % 8;
    var f := Frame(matches, input, rows, showIcons, ColorIds);
    assert f[2 * i] == rs[2 * i] && f[2 * i + 1] == rs[2 * i + 1];
  }

  /** The layout of a pass with the palette `ColorIds`: exactly
      min(|matches|, rows-1) result rows, row `i` labelled `i+1` with the
      entry in colour pair `i mod 8`, then the prompt and the cursor on the
      last row. */
  lemma FrameLayout(matches: seq<string>, input: string, rows: int, showIcons: bool)
    requires rows >= 1
    ensures var f, n := Frame(matches, input, rows, showIcons, ColorIds), VisibleRows(matches, rows);
      && |f| == 2 * n + 2
      && (forall i :: 0 <= i < n ==> f[2 * i] == Print(i, 0, Rank(i + 1), LabelPair, true))
      && (forall i :: 0 <= i < n ==>
            f[2 * i + 1] == Print(i, EntryColumn, EntryText(matches[i], showIcons), i % 8, false))
      && f[2 * n] == Print(rows - 1, 0, "~> " + input, PromptPair, true)
      && f[2 * n + 1] == Cursor(rows - 1, 3 + |input|)
  {
    forall i | 0 <= i < VisibleRows(matches, rows) {
      FrameRow(matches, input, rows, showIcons, i);
    }
  }

  /** Nothing is printed below the prompt row or above row 0, and every
      record above the prompt row belongs to a match. */
  lemma FrameStaysOnScreen(matches: seq<string>, input: string, rows: int, showIcons: bool)
    requires rows >= 1
    ensures forall d :: d in Frame(matches, input, rows, showIcons, ColorIds) ==> 0 <= d.row <= rows - 1
    ensures forall d :: d in Frame(matches, input, rows, showIcons, ColorIds) && d.row < rows - 1 ==>
      d.row < |matches|
  {
    var f, n := Frame(matches, input, rows, showIcons, ColorIds), VisibleRows(matches, rows);
    FrameLayout(matches, input, rows, showIcons);
    forall d | d in f
      ensures 0 <= d.row <= rows - 1 && (d.row < rows - 1 ==> d.row < |matches|)
    {
      var k :| 0 <= k < |f| && f[k] == d;
      if k < 2 * n {
        var i := k / 2;
        assert i < n && i < |matches|;
        var entry := EntryText(matches[i], showIcons);
        if k == 2 * i {
          assert f[2 * i].row == i;
        } else {
          assert k == 2 * i + 1 && f[2 * i + 1].row == i;
        }
      }
    }
  }
}
