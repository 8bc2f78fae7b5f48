/**
 * The renderer of `image_to_str`: a grid of palette indices (already
 * quantized and resized to the terminal) becomes one printable text. Each
 * cell is a block glyph styled with its index's colour, except that the
 * styling is left out when the styled glyph equals the one emitted just
 * before it in row-major order; rows are joined by newlines and the text
 * ends with the reset sequence.
 *
 * The text is built from tokens (a style code, the block, a newline, the
 * reset); `Spell` gives the characters the program prints for them.
 */
module Render {
  import opened Wrappers
  import opened Ansi
  import opened Palette

  /** The pieces of a rendered text. */
  datatype Token = Code(code: StyleCode) | Block | Newline | ResetAll

  /** One emitted cell: the bare `PIXEL`, or `color(i) + PIXEL`. */
  datatype Cell = Bare | Styled(code: StyleCode)

  // ---------------------------------------------------------------------
  // Text of tokens, cells, rows and grids
  // ---------------------------------------------------------------------

  /** The characters the program prints for a token. */
  function TokenText(t: Token): (s: string)
  {
    match t
    case Code(c) => CodeText(c)
    case Block => PIXEL
    case Newline => "\n"
    case ResetAll => RESET_ALL
  }

  /** The characters of a token sequence. */
  function Spell(ts: seq<Token>): (s: string)
  {
    if ts == [] then [] else TokenText(ts[0]) + Spell(ts[1..])
  }

  lemma {:induction false} SpellAppend(a: seq<Token>, b: seq<Token>)
    ensures Spell(a + b) == Spell(a) + Spell(b)
  {
    if a != [] {
      assert (a + b)[0] == a[0] && (a + b)[1..] == a[1..] + b;
      SpellAppend(a[1..], b);
      calc {
        Spell(a + b);
        TokenText(a[0]) + Spell(a[1..] + b);
        TokenText(a[0]) + (Spell(a[1..]) + Spell(b));
        (TokenText(a[0]) + Spell(a[1..])) + Spell(b);
      }
    } else {
      assert a + b == b;
    }
  }

  function CellText(c: Cell): (ts: seq<Token>)
  {
    match c
    case Bare => [Block]
    case Styled(code) => [Code(code), Block]
  }

  /** `"".join(line)`. */
  function RowText(row: seq<Cell>): (ts: seq<Token>)
  {
    if row == [] then [] else CellText(row[0]) + RowText(row[1..])
  }

  /** `"\n".join(...)` of the rows' texts. */
  function JoinRows(rows: seq<seq<Cell>>): (ts: seq<Token>)
  {
    if rows == [] then []
    else if |rows| == 1 then RowText(rows[0])
    else RowText(rows[0]) + ([Newline] + JoinRows(rows[1..]))
  }

  // ---------------------------------------------------------------------
  // The rendering, as a closed form
  // ---------------------------------------------------------------------

  /**
   * A rendering input: `|pixels|` rows of `width` palette indices, each an
   * index of the colour table.
   */
  predicate IsIndexGrid(pixels: seq<seq<nat>>, width: nat)
  {
    forall y :: 0 <= y < |pixels| ==>
      |pixels[y]| == width && forall x :: 0 <= x < width ==> pixels[y][x] < COLOR_COUNT
  }

  /** `color(i) + PIXEL`, the fully styled glyph of an index. */
  function Glyph(i: nat): (g: seq<Token>)
    requires i < COLOR_COUNT
  {
    [Code(Color(i).value), Block]
  }

  /**
   * The index of the cell emitted just before (x, y): its left neighbour,
   * or for the first cell of a row the last cell of the row above; the
   * first cell of the grid has none.
   */
  function Previous(pixels: seq<seq<nat>>, width: nat, y: nat, x: nat): (prev: Option<nat>)
    requires IsIndexGrid(pixels, width) && y < |pixels| && x < width
  {
    if x > 0 then Some(pixels[y][x - 1])
    else if y > 0 then Some(pixels[y - 1][width - 1])
    else None
  }

  /** The cell the renderer emits at (x, y). */
  function CellAt(pixels: seq<seq<nat>>, width: nat, y: nat, x: nat): (c: Cell)
    requires IsIndexGrid(pixels, width) && y < |pixels| && x < width
  {
    var prev := Previous(pixels, width, y, x);
    if prev.Some? && Glyph(prev.value) == Glyph(pixels[y][x]) then Bare
    else Styled(Color(pixels[y][x]).value)
  }

  /** All the cells, row by row. */
  function CellGrid(pixels: seq<seq<nat>>, width: nat): (g: seq<seq<Cell>>)
    requires IsIndexGrid(pixels, width)
    ensures |g| == |pixels|
    ensures forall y :: 0 <= y < |g| ==> |g[y]| == width
    ensures forall y, x :: 0 <= y < |g| && 0 <= x < width ==> g[y][x] == CellAt(pixels, width, y, x)
  {
    seq(|pixels|, y requires 0 <= y < |pixels| =>
      seq(width, x requires 0 <= x < width => CellAt(pixels, width, y, x)))
  }

  /** The text `image_to_str` returns for an index grid. */
  function Rendered(pixels: seq<seq<nat>>, width: nat): (text: seq<Token>)
    requires IsIndexGrid(pixels, width)
  {
    JoinRows(CellGrid(pixels, width)) + [ResetAll]
  }

  /** The same text with every cell styled: the rendering without the run-length saving. */
  function RenderedUnoptimized(pixels: seq<seq<nat>>, width: nat): (text: seq<Token>)
    requires IsIndexGrid(pixels, width)
  {
    JoinRows(seq(|pixels|, y requires 0 <= y < |pixels| =>
      seq(width, x requires 0 <= x < width => Styled(Color(pixels[y][x]).value)))) + [ResetAll]
  }

  // ---------------------------------------------------------------------
  // The loop of image_to_str
  // ---------------------------------------------------------------------

  /**
   * The rendering loop of `image_to_str`: row by row, cell by cell, emit
   * the styled glyph, or the bare block when it equals the last styled
   * glyph; `last` carries over from one row to the next.
   */
  method ImageToText(pixels: seq<seq<nat>>, width: nat) returns (text: seq<Token>)
    requires IsIndexGrid(pixels, width)
    ensures text == Rendered(pixels, width)
  {
    var content: seq<seq<Cell>> := [];
    var last: Option<seq<Token>> := None;
    var y := 0;
    while y < |pixels|
      invariant 0 <= y <= |pixels|
      invariant content == CellGrid(pixels, width)[..y]
      invariant last == if y > 0 && width > 0 then Some(Glyph(pixels[y - 1][width - 1])) else None
    {
      var row;
      row, last := RowToText(pixels, width, y, last);
      SlicePush(CellGrid(pixels, width), y + 1);
      content := content + [row];
      y := y + 1;
    }
    assert CellGrid(pixels, width)[..|pixels|] == CellGrid(pixels, width);
    text := JoinRows(content) + [ResetAll];
  }

  /**
   * The inner loop of the renderer: fills row y of the cell grid, carrying
   * the glyph last written across from the previous row.
   */
  method RowToText(pixels: seq<seq<nat>>, width: nat, y: nat, last0: Option<seq<Token>>)
    returns (row: seq<Cell>, last: Option<seq<Token>>)
    requires IsIndexGrid(pixels, width) && y < |pixels|
    requires last0 == LastGlyph(pixels, width, y, 0)
    ensures row == CellGrid(pixels, width)[y]
    ensures last == LastGlyph(pixels, width, y, width)
  {
    row, last := [], last0;
    var x := 0;
    while x < width
      invariant 0 <= x <= width
      invariant row == RowPrefix(pixels, width, y, x)
      invariant last == LastGlyph(pixels, width, y, x)
    {
      var code := Color(pixels[y][x]).value;
      var colorPxl := [Code(code), Block];
      var cell := if Some(colorPxl) == last then Bare else Styled(code);
      CellStep(pixels, width, y, x);
      row := row + [cell];
      last := Some(colorPxl);
      x := x + 1;
    }
    RowPrefixIsRow(pixels, width, y, width);
    assert CellGrid(pixels, width)[y][..width] == CellGrid(pixels, width)[y];
  }

  /** The glyph written just before cell (x, y), if any. */
  ghost function LastGlyph(pixels: seq<seq<nat>>, width: nat, y: nat, x: nat): Option<seq<Token>>
    requires IsIndexGrid(pixels, width) && y < |pixels| && x <= width
  {
    if x > 0 then Some(Glyph(pixels[y][x - 1]))
    else if y > 0 && width > 0 then Some(Glyph(pixels[y - 1][width - 1]))
    else None
  }

  /** The first x cells of row y, as the inner loop has emitted them. */
  ghost function RowPrefix(pixels: seq<seq<nat>>, width: nat, y: nat, x: nat): seq<Cell>
    requires IsIndexGrid(pixels, width) && y < |pixels| && x <= width
  {
    if x == 0 then [] else RowPrefix(pixels, width, y, x - 1) + [CellAt(pixels, width, y, x - 1)]
  }

  lemma {:induction false} RowPrefixIsRow(pixels: seq<seq<nat>>, width: nat, y: nat, x: nat)
    requires IsIndexGrid(pixels, width) && y < |pixels| && x <= width
    ensures RowPrefix(pixels, width, y, x) == CellGrid(pixels, width)[y][..x]
  {
    if x > 0 {
      RowPrefixIsRow(pixels, width, y, x - 1);
      SlicePush(CellGrid(pixels, width)[y], x);
    }
  }

  lemma SlicePush<T>(s: seq<T>, n: nat)
    requires 0 < n <= |s|
    ensures s[..n] == s[..n - 1] + [s[n - 1]]
  {
  }

  /** One step of the loop: comparing with the last glyph written decides the cell. */
  lemma CellStep(pixels: seq<seq<nat>>, width: nat, y: nat, x: nat)
    requires IsIndexGrid(pixels, width) && y < |pixels| && x < width
    ensures CellAt(pixels, width, y, x) ==
      if Some(Glyph(pixels[y][x])) == LastGlyph(pixels, width, y, x) then Bare
      else Styled(Color(pixels[y][x]).value)
  {
  }

  // ---------------------------------------------------------------------
  // The run-length rule
  // ---------------------------------------------------------------------

  /** The printed form of a styled glyph: the code's escapes, then the block. */
  lemma GlyphText(c: StyleCode)
    ensures Spell([Code(c), Block]) == CodeText(c) + PIXEL
  {
    assert [Code(c), Block][1..] == [Block] && [Block][1..] == [];
  }

  /**
   * Comparing styled strings is comparing indices: two table indices have
   * the same printed glyph exactly when they are the same index.
   */
  lemma GlyphTextInjective(i: nat, j: nat)
    requires i < COLOR_COUNT && j < COLOR_COUNT
    ensures Spell(Glyph(i)) == Spell(Glyph(j)) <==> i == j
  {
    var ci, cj := Color(i).value, Color(j).value;
    GlyphText(ci);
    GlyphText(cj);
    if Spell(Glyph(i)) == Spell(Glyph(j)) {
      var n := |CodeText(ci)|;
      assert |CodeText(cj)| == n;
      assert CodeText(ci) == (CodeText(ci) + PIXEL)[..n] == (CodeText(cj) + PIXEL)[..n] == CodeText(cj);
      CodeTextInjective(ci, cj);
    }
    ColorInjective(i, j);
  }

  /**
   * The run-length rule. The first cell of the grid is styled; every other
   * cell is the bare block exactly when its index equals the index of the
   * cell before it in row-major order (the last cell of the row above for
   * the first cell of a row); a cell that is not bare carries its own
   * index's style code.
   */
  lemma DedupRule(pixels: seq<seq<nat>>, width: nat, y: nat, x: nat)
    requires IsIndexGrid(pixels, width) && y < |pixels| && x < width
    ensures (y, x) == (0, 0) ==> CellGrid(pixels, width)[y][x] == Styled(Color(pixels[0][0]).value)
    ensures x > 0 ==> (CellGrid(pixels, width)[y][x] == Bare <==> pixels[y][x] == pixels[y][x - 1])
    ensures x == 0 < y ==> (CellGrid(pixels, width)[y][x] == Bare <==> pixels[y][x] == pixels[y - 1][width - 1])
    ensures CellGrid(pixels, width)[y][x] != Bare ==> CellGrid(pixels, width)[y][x] == Styled(Color(pixels[y][x]).value)
  {
    var prev := Previous(pixels, width, y, x);
    if prev.Some? {
      ColorInjective(prev.value, pixels[y][x]);
    }
  }

  // ---------------------------------------------------------------------
  // Shape of the text
  // ---------------------------------------------------------------------

  lemma {:induction false} RowCounts(row: seq<Cell>)
    ensures multiset(RowText(row))[Block] == |row|
    ensures multiset(RowText(row))[Newline] == 0
    ensures multiset(RowText(row))[ResetAll] == 0
  {
    if row != [] {
      RowCounts(row[1..]);
    }
  }

  /** Number of cells in all the rows. */
  function CellCount(rows: seq<seq<Cell>>): (n: nat)
  {
    if rows == [] then 0 else |rows[0]| + CellCount(rows[1..])
  }

  lemma {:induction false} CellCountRectangle(rows: seq<seq<Cell>>, width: nat)
    requires forall y :: 0 <= y < |rows| ==> |rows[y]| == width
    ensures CellCount(rows) == width * |rows|
  {
    if rows != [] {
      CellCountRectangle(rows[1..], width);
      var n := |rows| - 1;
      assert width * (n + 1) == width * n + width;
    }
  }

  lemma JoinSplit(rows: seq<seq<Cell>>)
    requires |rows| > 1
    ensures multiset(JoinRows(rows)) == multiset(RowText(rows[0])) + multiset{Newline} + multiset(JoinRows(rows[1..]))
  {
  }

  lemma {:induction false} JoinCounts(rows: seq<seq<Cell>>)
    ensures multiset(JoinRows(rows))[Block] == CellCount(rows)
    ensures multiset(JoinRows(rows))[Newline] == if rows == [] then 0 else |rows| - 1
    ensures multiset(JoinRows(rows))[ResetAll] == 0
  {
    if rows != [] {
      RowCounts(rows[0]);
      if |rows| > 1 {
        JoinCounts(rows[1..]);
        JoinSplit(rows);
      }
    }
  }

  /**
   * Every cell of a rendering is the bare block or the styled glyph of its
   * own index: the renderer never emits another colour.
   */
  lemma CellsAreBareOrOwnGlyph(pixels: seq<seq<nat>>, width: nat)
    requires IsIndexGrid(pixels, width)
    ensures forall y, x :: 0 <= y < |pixels| && 0 <= x < width ==>
      CellText(CellGrid(pixels, width)[y][x]) in {[Block], Glyph(pixels[y][x])}
  {
    forall y, x | 0 <= y < |pixels| && 0 <= x < width
      ensures CellText(CellGrid(pixels, width)[y][x]) in {[Block], Glyph(pixels[y][x])}
    {
      DedupRule(pixels, width, y, x);
    }
  }

  /**
   * Token counts of a rendering: `width * height` blocks (the run-length
   * saving drops no cell and adds none), `height - 1` newlines between the
   * rows, and one reset, which is the last token.
   */
  lemma RenderCounts(pixels: seq<seq<nat>>, width: nat)
    requires IsIndexGrid(pixels, width)
    ensures multiset(Rendered(pixels, width))[Block] == width * |pixels|
    ensures multiset(Rendered(pixels, width))[Newline] == if pixels == [] then 0 else |pixels| - 1
    ensures multiset(Rendered(pixels, width))[ResetAll] == 1
    ensures Rendered(pixels, width)[|Rendered(pixels, width)| - 1] == ResetAll
  {
    var g := CellGrid(pixels, width);
    JoinCounts(g);
    CellCountRectangle(g, width);
  }

  /** A non-empty rendering starts with the fully styled glyph of its first cell. */
  lemma RenderStartsStyled(pixels: seq<seq<nat>>, width: nat)
    requires IsIndexGrid(pixels, width) && |pixels| > 0 && width > 0
    ensures |Rendered(pixels, width)| >= 2 && Rendered(pixels, width)[..2] == Glyph(pixels[0][0])
  {
    var g := CellGrid(pixels, width);
    DedupRule(pixels, width, 0, 0);
    var first := RowText(g[0]);
    assert first == CellText(g[0][0]) + RowText(g[0][1..]);
    assert first[..2] == Glyph(pixels[0][0]);
    assert JoinRows(g)[..2] == first[..2];
  }

  // ---------------------------------------------------------------------
  // What the terminal shows
  // ---------------------------------------------------------------------

  /**
   * The graphic rendition in force on an ANSI terminal, as far as the
   * program's codes touch it: the foreground colour (None: the default)
   * and the separate bold and faint attributes.
   */
  datatype Pen = Pen(fore: Option<Fore>, bold: bool, faint: bool)

  /** The rendition after `ESC [ 0 m`, and at the start. */
  const DEFAULT_PEN := Pen(None, false, false)

  /**
   * Writing a style code `Fore.X + Style.Y`: SGR 30-37 sets the foreground;
   * SGR 1 (bright) turns bold on and SGR 2 (dim) turns faint on, each
   * leaving the other attribute as it was; SGR 22 (normal) turns both off.
   */
  function Apply(c: StyleCode, pen: Pen): (next: Pen)
    ensures next.fore == Some(c.fore)
    ensures c.intensity == Bright ==> next.bold && next.faint == pen.faint
    ensures c.intensity == Dim ==> next.faint && next.bold == pen.bold
    ensures c.intensity == Normal ==> !next.bold && !next.faint
  {
    match c.intensity
    case Bright => Pen(Some(c.fore), true, pen.faint)
    case Dim => Pen(Some(c.fore), pen.bold, true)
    case Normal => Pen(Some(c.fore), false, false)
  }

  /** Writing the same code twice in a row changes nothing the second time. */
  lemma ApplyIdempotent(c: StyleCode, pen: Pen)
    ensures Apply(c, Apply(c, pen)) == Apply(c, pen)
  {
  }

  /**
   * The rendition each block is drawn in when the tokens are written to a
   * terminal whose rendition is `pen`. A style code updates the rendition,
   * the reset restores the default, a newline keeps it.
   */
  function Paint(ts: seq<Token>, pen: Pen): (drawn: seq<Pen>)
  {
    if ts == [] then []
    else match ts[0]
      case Code(c) => Paint(ts[1..], Apply(c, pen))
      case Block => [pen] + Paint(ts[1..], pen)
      case Newline => Paint(ts[1..], pen)
      case ResetAll => Paint(ts[1..], DEFAULT_PEN)
  }

  /** The terminal's rendition after the tokens are written. */
  function PenAfter(ts: seq<Token>, pen: Pen): (after: Pen)
  {
    if ts == [] then pen
    else match ts[0]
      case Code(c) => PenAfter(ts[1..], Apply(c, pen))
      case Block => PenAfter(ts[1..], pen)
      case Newline => PenAfter(ts[1..], pen)
      case ResetAll => PenAfter(ts[1..], DEFAULT_PEN)
  }

  lemma {:induction false} PaintAppend(a: seq<Token>, b: seq<Token>, pen: Pen)
    ensures Paint(a + b, pen) == Paint(a, pen) + Paint(b, PenAfter(a, pen))
    ensures PenAfter(a + b, pen) == PenAfter(b, PenAfter(a, pen))
  {
    if a != [] {
      assert (a + b)[0] == a[0] && (a + b)[1..] == a[1..] + b;
      match a[0]
      case Code(c) => PaintAppend(a[1..], b, Apply(c, pen));
      case Block => PaintAppend(a[1..], b, pen);
      case Newline => PaintAppend(a[1..], b, pen);
      case ResetAll => PaintAppend(a[1..], b, DEFAULT_PEN);
    } else {
      assert a + b == b;
    }
  }

  /** A bare cell draws in the rendition in force; a styled cell applies its code first. */
  lemma CellPaint(c: Cell, pen: Pen)
    ensures c == Bare ==> Paint(CellText(c), pen) == [pen] && PenAfter(CellText(c), pen) == pen
    ensures c.Styled? ==> Paint(CellText(c), pen) == [Apply(c.code, pen)] && PenAfter(CellText(c), pen) == Apply(c.code, pen)
  {
    var t := CellText(c);
    if c == Bare {
      assert t[1..] == [];
    } else {
      var next := Apply(c.code, pen);
      assert t[0] == Code(c.code) && t[1..] == [Block] && t[1..][1..] == [];
      assert Paint(t[1..], next) == [next];
      assert PenAfter(t[1..], next) == PenAfter(t[1..][1..], next) == next;
    }
  }

  /** Row-major concatenation. */
  function Concat<T>(rows: seq<seq<T>>): (flat: seq<T>)
  {
    if rows == [] then [] else rows[0] + Concat(rows[1..])
  }

  /**
   * A row of cells that draws the renditions `want` when the terminal
   * starts in `pen`: each cell, written after the one before, leaves the
   * rendition its position wants.
   */
  ghost predicate DrawsRow(cells: seq<Cell>, want: seq<Pen>, pen: Pen)
  {
    |cells| == |want| &&
    forall k {:trigger cells[k]} :: 0 <= k < |cells| ==> CellDraws(cells[k], if k == 0 then pen else want[k - 1], want[k])
  }

  /** A cell draws rendition `want` after a cell drawn in `before`. */
  ghost predicate CellDraws(c: Cell, before: Pen, want: Pen)
  {
    (c == Bare ==> before == want) && (c.Styled? ==> Apply(c.code, before) == want)
  }

  lemma {:induction false} RowPaint(cells: seq<Cell>, want: seq<Pen>, pen: Pen)
    requires DrawsRow(cells, want, pen)
    ensures Paint(RowText(cells), pen) == want
    ensures PenAfter(RowText(cells), pen) == if cells == [] then pen else want[|want| - 1]
  {
    if cells != [] {
      var head, rest := CellText(cells[0]), RowText(cells[1..]);
      assert RowText(cells) == head + rest;
      DrawsRowSplit(cells, want, pen);
      CellPaint(cells[0], pen);
      assert Paint(head, pen) == [want[0]] && PenAfter(head, pen) == want[0];
      PaintAppend(head, rest, pen);
      RowPaint(cells[1..], want[1..], want[0]);
      assert want == [want[0]] + want[1..];
    }
  }

  /** A drawing row splits into its first cell and a drawing rest. */
  lemma DrawsRowSplit(cells: seq<Cell>, want: seq<Pen>, pen: Pen)
    requires DrawsRow(cells, want, pen) && cells != []
    ensures CellDraws(cells[0], pen, want[0])
    ensures DrawsRow(cells[1..], want[1..], want[0])
  {
    forall k | 0 <= k < |cells| - 1
      ensures CellDraws(cells[1..][k], if k == 0 then want[0] else want[1..][k - 1], want[1..][k])
    {
      assert CellDraws(cells[k + 1], want[k], want[k + 1]);
    }
  }

  /** Rendition in force at the start of row y: that of the last cell of the row above. */
  function RowStart(want: seq<seq<Pen>>, width: nat, y: nat, pen: Pen): (start: Pen)
    requires y < |want| && forall r :: 0 <= r < |want| ==> |want[r]| == width
  {
    if y == 0 || width == 0 then pen else want[y - 1][width - 1]
  }

  ghost predicate DrawsGrid(rows: seq<seq<Cell>>, want: seq<seq<Pen>>, width: nat, pen: Pen)
  {
    |rows| == |want| &&
    (forall y :: 0 <= y < |want| ==> |want[y]| == width) &&
    forall y :: 0 <= y < |rows| ==> DrawsRow(rows[y], want[y], RowStart(want, width, y, pen))
  }

  lemma {:induction false} GridPaint(rows: seq<seq<Cell>>, want: seq<seq<Pen>>, width: nat, pen: Pen)
    requires DrawsGrid(rows, want, width, pen)
    ensures Paint(JoinRows(rows), pen) == Concat(want)
  {
    if rows != [] {
      RowPaint(rows[0], want[0], pen);
      if |rows| == 1 {
        assert Concat(want) == want[0] + Concat(want[1..]);
        assert want[1..] == [];
      } else {
        var next := PenAfter(RowText(rows[0]), pen);
        PaintAppend(RowText(rows[0]), [Newline] + JoinRows(rows[1..]), pen);
        assert ([Newline] + JoinRows(rows[1..]))[1..] == JoinRows(rows[1..]);
        assert DrawsGrid(rows[1..], want[1..], width, next) by {
          forall y | 0 <= y < |rows| - 1
            ensures DrawsRow(rows[1..][y], want[1..][y], RowStart(want[1..], width, y, next))
          {
            assert RowStart(want[1..], width, y, next) == RowStart(want, width, y + 1, pen);
            assert DrawsRow(rows[y + 1], want[y + 1], RowStart(want, width, y + 1, pen));
          }
        }
        GridPaint(rows[1..], want[1..], width, next);
      }
    }
  }

  /**
   * The rendition block (x, y) is drawn in by the fully styled text: every
   * code of the grid up to and including that cell's, applied in row-major
   * order from the default.
   */
  function PenAt(pixels: seq<seq<nat>>, width: nat, y: nat, x: nat): (pen: Pen)
    requires IsIndexGrid(pixels, width) && y < |pixels| && x < width
    decreases y, x, 1
  {
    Apply(Color(pixels[y][x]).value, PenBefore(pixels, width, y, x))
  }

  /** The rendition in force just before cell (x, y) is written. */
  function PenBefore(pixels: seq<seq<nat>>, width: nat, y: nat, x: nat): (pen: Pen)
    requires IsIndexGrid(pixels, width) && y < |pixels| && x < width
    decreases y, x, 0
  {
    if x > 0 then PenAt(pixels, width, y, x - 1)
    else if y > 0 then PenAt(pixels, width, y - 1, width - 1)
    else DEFAULT_PEN
  }

  /** The renditions of all blocks, row by row. */
  function Pens(pixels: seq<seq<nat>>, width: nat): (p: seq<seq<Pen>>)
    requires IsIndexGrid(pixels, width)
    ensures |p| == |pixels| && forall y :: 0 <= y < |p| ==> |p[y]| == width
    ensures forall y, x :: 0 <= y < |p| && 0 <= x < width ==> p[y][x] == PenAt(pixels, width, y, x)
  {
    seq(|pixels|, y requires 0 <= y < |pixels| =>
      seq(width, x requires 0 <= x < width => PenAt(pixels, width, y, x)))
  }

  /**
   * Every block is drawn in the foreground colour of its own index, and
   * the intensity its code asks for is on: bold for bright, faint for dim,
   * neither for normal.
   */
  lemma PensShowOwnColour(pixels: seq<seq<nat>>, width: nat)
    requires IsIndexGrid(pixels, width)
    ensures forall y, x :: 0 <= y < |pixels| && 0 <= x < width ==>
      var pen, code := Pens(pixels, width)[y][x], Color(pixels[y][x]).value;
      pen.fore == Some(code.fore) &&
      (code.intensity == Bright ==> pen.bold) &&
      (code.intensity == Dim ==> pen.faint) &&
      (code.intensity == Normal ==> !pen.bold && !pen.faint)
  {
  }

  /**
   * Bright and dim are separate attributes: a dim red block written after
   * a bright red one is drawn bold and faint at once.
   */
  lemma IntensitiesAccumulate()
    ensures Pens([[8, 6]], 2)[0][1] == Pen(Some(Red), true, true)
  {
    var pixels := [[8, 6]];
    assert IsIndexGrid(pixels, 2);
    assert Color(8) == Some(StyleCode(Red, Bright));
    assert Color(6) == Some(StyleCode(Red, Dim));
    assert PenAt(pixels, 2, 0, 0) == Pen(Some(Red), true, false);
  }

  /** The rendered cells draw each block in the rendition the fully styled text gives it. */
  lemma CellGridDraws(pixels: seq<seq<nat>>, width: nat)
    requires IsIndexGrid(pixels, width)
    ensures DrawsGrid(CellGrid(pixels, width), Pens(pixels, width), width, DEFAULT_PEN)
  {
    var want := Pens(pixels, width);
    var g := CellGrid(pixels, width);
    forall y | 0 <= y < |g|
      ensures DrawsRow(g[y], want[y], RowStart(want, width, y, DEFAULT_PEN))
    {
      forall x | 0 <= x < width
        ensures CellDraws(g[y][x], if x == 0 then RowStart(want, width, y, DEFAULT_PEN) else want[y][x - 1], want[y][x])
      {
        CellDrawsPen(pixels, width, y, x);
      }
    }
  }

  lemma CellDrawsPen(pixels: seq<seq<nat>>, width: nat, y: nat, x: nat)
    requires IsIndexGrid(pixels, width) && y < |pixels| && x < width
    ensures var want := Pens(pixels, width);
      CellDraws(CellGrid(pixels, width)[y][x],
                if x == 0 then RowStart(want, width, y, DEFAULT_PEN) else want[y][x - 1],
                want[y][x])
  {
    var want := Pens(pixels, width);
    var before := if x == 0 then RowStart(want, width, y, DEFAULT_PEN) else want[y][x - 1];
    assert before == PenBefore(pixels, width, y, x);
    var code := Color(pixels[y][x]).value;
    var prev := Previous(pixels, width, y, x);
    DedupRule(pixels, width, y, x);
    if prev.Some? && prev.value == pixels[y][x] {
      ApplyIdempotent(code, if x > 0 then PenBefore(pixels, width, y, x - 1) else PenBefore(pixels, width, y - 1, width - 1));
    }
  }

  /**
   * The run-length saving has no visible effect: from the default
   * rendition, the rendering draws every block exactly as the text with
   * every cell styled does, in row-major order.
   */
  lemma RenderPaintsColours(pixels: seq<seq<nat>>, width: nat)
    requires IsIndexGrid(pixels, width)
    ensures Paint(Rendered(pixels, width), DEFAULT_PEN) == Paint(RenderedUnoptimized(pixels, width), DEFAULT_PEN)
    ensures Paint(Rendered(pixels, width), DEFAULT_PEN) == Concat(Pens(pixels, width))
  {
    var want := Pens(pixels, width);
    var g := CellGrid(pixels, width);
    CellGridDraws(pixels, width);
    GridPaint(g, want, width, DEFAULT_PEN);
    PaintAppend(JoinRows(g), [ResetAll], DEFAULT_PEN);
    UnoptimizedPaints(pixels, width);
  }

  lemma UnoptimizedPaints(pixels: seq<seq<nat>>, width: nat)
    requires IsIndexGrid(pixels, width)
    ensures Paint(RenderedUnoptimized(pixels, width), DEFAULT_PEN) == Concat(Pens(pixels, width))
  {
    var want := Pens(pixels, width);
    var full := seq(|pixels|, y requires 0 <= y < |pixels| =>
      seq(width, x requires 0 <= x < width => Styled(Color(pixels[y][x]).value)));
    assert DrawsGrid(full, want, width, DEFAULT_PEN) by {
      forall y | 0 <= y < |full|
        ensures DrawsRow(full[y], want[y], RowStart(want, width, y, DEFAULT_PEN))
      {
        forall x | 0 <= x < width
          ensures CellDraws(full[y][x], if x == 0 then RowStart(want, width, y, DEFAULT_PEN) else want[y][x - 1], want[y][x])
        {
          StyledDrawsPen(pixels, width, y, x);
        }
      }
    }
    GridPaint(full, want, width, DEFAULT_PEN);
    PaintAppend(JoinRows(full), [ResetAll], DEFAULT_PEN);
  }

  lemma StyledDrawsPen(pixels: seq<seq<nat>>, width: nat, y: nat, x: nat)
    requires IsIndexGrid(pixels, width) && y < |pixels| && x < width
    ensures var want := Pens(pixels, width);
      CellDraws(Styled(Color(pixels[y][x]).value),
                if x == 0 then RowStart(want, width, y, DEFAULT_PEN) else want[y][x - 1],
                want[y][x])
  {
    var want := Pens(pixels, width);
    var before := if x == 0 then RowStart(want, width, y, DEFAULT_PEN) else want[y][x - 1];
    assert before == PenBefore(pixels, width, y, x);
  }
}
