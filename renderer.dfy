/** Model of src/renderer.rs, the older cell-grid renderer: a row-major buffer of cells, the
    overwrite compositor that paints draw calls into it, the background fill, and the
    double-buffered screen whose diff lists the cells to repaint. */
module Renderer {
  import opened Wrappers
  import opened Basics

  type Byte = x: int | 0 <= x < 256

  /** `RGBA`: byte channels and an alpha that `f32` holds; only equality and copying of
      colours matter here, so the alpha is a real. */
  datatype Rgba = Rgba(r: Byte, g: Byte, b: Byte, a: real)

  /** `f32::clamp(0.0, 1.0)`. */
  function Clamp01(a: real): (c: real)
    ensures 0.0 <= c <= 1.0
    ensures 0.0 <= a <= 1.0 ==> c == a
    ensures a < 0.0 ==> c == 0.0
    ensures a > 1.0 ==> c == 1.0
  {
    if a < 0.0 then 0.0 else if a > 1.0 then 1.0 else a
  }

  /** `RGBA::from_u8`: the bytes as given, the alpha clamped into [0, 1]. */
  function FromU8(r: Byte, g: Byte, b: Byte, a: real): (c: Rgba)
    ensures c.r == r && c.g == g && c.b == b && c.a == Clamp01(a)
    ensures 0.0 <= c.a <= 1.0
  {
    Rgba(r, g, b, Clamp01(a))
  }

  const OPAQUE_WHITE := Rgba(255, 255, 255, 1.0)
  const OPAQUE_BLACK := Rgba(0, 0, 0, 1.0)

  /** `RichText`: one run of text in one style. */
  datatype RichText = RichText(text: string, fg: Rgba, bg: Rgba, bold: bool)

  /** `RichText::new`: the text, opaque white on opaque black, not bold. */
  function NewRichText(text: string): (t: RichText)
    ensures t.text == text && t.fg == OPAQUE_WHITE && t.bg == OPAQUE_BLACK && !t.bold
  {
    RichText(text, OPAQUE_WHITE, OPAQUE_BLACK, false)
  }

  /** `set_fg`: replaces the foreground and keeps everything else. */
  function SetFg(t: RichText, fg: Rgba): (u: RichText)
    ensures u.fg == fg && u.text == t.text && u.bg == t.bg && u.bold == t.bold
  {
    t.(fg := fg)
  }

  /** `set_bg`: replaces the background and keeps everything else. */
  function SetBg(t: RichText, bg: Rgba): (u: RichText)
    ensures u.bg == bg && u.text == t.text && u.fg == t.fg && u.bold == t.bold
  {
    t.(bg := bg)
  }

  /** `set_bold`: replaces the bold flag and keeps everything else. */
  function SetBold(t: RichText, bold: bool): (u: RichText)
    ensures u.bold == bold && u.text == t.text && u.fg == t.fg && u.bg == t.bg
  {
    t.(bold := bold)
  }

  /** The three setters touch disjoint fields, so any order of them gives the same text, and
      setting one twice keeps only the last value. */
  lemma SettersCommute(t: RichText, fg: Rgba, bg: Rgba, bold: bool, fg2: Rgba)
    ensures SetBg(SetFg(t, fg), bg) == SetFg(SetBg(t, bg), fg)
    ensures SetBold(SetFg(t, fg), bold) == SetFg(SetBold(t, bold), fg)
    ensures SetBold(SetBg(t, bg), bold) == SetBg(SetBold(t, bold), bg)
    ensures SetFg(SetFg(t, fg), fg2) == SetFg(t, fg2)
  {
  }

  /** `Cell`: one character position of the terminal. */
  datatype Cell = Cell(ch: char, fg: Rgba, bg: Rgba, bold: bool)

  /** The test `diff_buffers` applies field by field is exactly inequality of cells. */
  predicate CellsDiffer(a: Cell, b: Cell)
  {
    a.ch != b.ch || a.fg != b.fg || a.bg != b.bg || a.bold != b.bold
  }

  lemma CellsDifferIffUnequal(a: Cell, b: Cell)
    ensures CellsDiffer(a, b) <==> a != b
  {
  }

  /** The cell `ScreenBuffer::new` fills the grid with. */
  function DefaultCell(bg: Rgba): (c: Cell)
    ensures c.ch == ' ' && c.fg == OPAQUE_WHITE && c.bg == bg && !c.bold
  {
    Cell(' ', FromU8(255, 255, 255, 1.0), bg, false)
  }

  /** The cell `fill_screen_background` writes everywhere. */
  function BackgroundCell(bg: Rgba): (c: Cell)
    ensures c.ch == ' ' && c.fg == OPAQUE_BLACK && c.bg == bg && !c.bold
  {
    Cell(' ', FromU8(0, 0, 0, 1.0), bg, false)
  }

  /** `DrawCall`: a rich text anchored at column `x`, row `y`. */
  datatype DrawCall = DrawCall(x: nat, y: nat, text: RichText)

  // ---------------------------------------------------------------- row-major layout

  /** A position inside a width-by-height grid has its row-major index inside the grid. */
  lemma RowMajorInBounds(w: nat, h: nat, x: nat, y: nat)
    requires x < w && y < h
    ensures y * w + x < w * h
  {
    assert y * w + x < (y + 1) * w;
    assert (y + 1) * w <= h * w;
  }

  /** Distinct positions of one grid have distinct row-major indices. */
  lemma RowMajorInjective(w: nat, x1: nat, y1: nat, x2: nat, y2: nat)
    requires x1 < w && x2 < w
    ensures y1 * w + x1 == y2 * w + x2 <==> x1 == x2 && y1 == y2
  {
    if y1 < y2 {
      assert y1 * w + x1 < (y1 + 1) * w <= y2 * w;
    } else if y2 < y1 {
      assert y2 * w + x2 < (y2 + 1) * w <= y1 * w;
    }
  }

  /** Every index of the grid is the row-major index of its column `i % w` and row `i / w`. */
  lemma RowMajorOfIndex(w: nat, h: nat, i: nat)
    requires i < w * h
    ensures w > 0 && i % w < w && i / w < h && (i / w) * w + i % w == i
  {
  }

  // ---------------------------------------------------------------- the buffer

  /** `ScreenBuffer`: a width-by-height grid of cells stored row-major. The `Vec` never
      changes length after `new`, so it is a fixed array whose cells are updated in place. */
  class ScreenBuffer {
    const width: nat
    const height: nat
    const cells: array<Cell>

    ghost predicate Valid()
    {
      cells.Length == width * height
    }

    /** `ScreenBuffer::new`: width * height copies of the default cell. */
    constructor (width: nat, height: nat, defaultBg: Rgba)
      ensures Valid() && this.width == width && this.height == height && fresh(cells)
      ensures forall i :: 0 <= i < cells.Length ==> cells[i] == DefaultCell(defaultBg)
    {
      this.width := width;
      this.height := height;
      cells := new Cell[width * height](_ => DefaultCell(defaultBg));
    }

    /** `get`: nothing outside the grid, else the cell at the row-major index. */
    function Get(x: nat, y: nat): (r: Option<Cell>)
      requires Valid()
      reads cells
      ensures r.None? <==> x >= width || y >= height
      ensures r.Some? ==> y * width + x < cells.Length && r.value == cells[y * width + x]
    {
      if x >= width || y >= height then None
      else
        RowMajorInBounds(width, height, x, y);
        Some(cells[y * width + x])
    }

    /** `get_mut`: the position of the mutable cell handed out, as an index into `cells`;
        nothing outside the grid. */
    method GetMut(x: nat, y: nat) returns (r: Option<nat>)
      requires Valid()
      ensures r.None? <==> x >= width || y >= height
      ensures r.Some? ==> r.value == y * width + x && r.value < cells.Length
    {
      if x >= width || y >= height {
        r := None;
      } else {
        RowMajorInBounds(width, height, x, y);
        r := Some(y * width + x);
      }
    }
  }

  /** `get` reaches every cell of the buffer, each at exactly its own column and row. */
  lemma GetCoversEveryCell(buf: ScreenBuffer, i: nat)
    requires buf.Valid() && i < buf.cells.Length
    ensures buf.Get(i % buf.width, i / buf.width) == Some(buf.cells[i])
    ensures forall x: nat, y: nat :: buf.Get(x, y) == Some(buf.cells[i]) && y * buf.width + x == i ==>
      x == i % buf.width && y == i / buf.width
  {
    RowMajorOfIndex(buf.width, buf.height, i);
    forall x: nat, y: nat | buf.Get(x, y) == Some(buf.cells[i]) && y * buf.width + x == i
      ensures x == i % buf.width && y == i / buf.width
    {
      RowMajorInjective(buf.width, x, y, i % buf.width, i / buf.width);
    }
  }

  // ---------------------------------------------------------------- composing

  /** The cell character `i` of a draw call's text is painted as. */
  function Painted(t: RichText, i: nat): (c: Cell)
    requires i < |t.text|
    ensures c.ch == t.text[i] && c.fg == t.fg && c.bg == t.bg && c.bold == t.bold
  {
    Cell(t.text[i], t.fg, t.bg, t.bold)
  }

  /** The inner loop of `compose_buffer` from character `i` of `dc`'s text on, over the grid
      as a sequence: it stops at the end of the text or at the first position off the right
      or bottom edge, and otherwise overwrites the cell under the character. */
  function PaintRun(w: nat, h: nat, cells: seq<Cell>, dc: DrawCall, i: nat): (r: seq<Cell>)
    requires |cells| == w * h
    ensures |r| == |cells|
    decreases |dc.text.text| - i
  {
    if i >= |dc.text.text| || dc.x + i >= w || dc.y >= h then cells
    else
      RowMajorInBounds(w, h, dc.x + i, dc.y);
      PaintRun(w, h, cells[dc.y * w + dc.x + i := Painted(dc.text, i)], dc, i + 1)
  }

  /** Whether `dc` paints over column `x` of row `y` (a position inside the grid): the row is
      the call's, and the column is one of its characters'. */
  predicate Covers(dc: DrawCall, x: nat, y: nat)
  {
    y == dc.y && dc.x <= x && x - dc.x < |dc.text.text|
  }

  /** The run painted from character `i` on, position by position: exactly the positions of
      characters `i` onwards that lie in the grid are painted, each with its own character. */
  lemma {:induction false} PaintRunFromAt(w: nat, h: nat, cells: seq<Cell>, dc: DrawCall, i: nat, x: nat, y: nat)
    requires |cells| == w * h && x < w && y < h
    ensures y * w + x < |cells|
    ensures PaintRun(w, h, cells, dc, i)[y * w + x] ==
      if Covers(dc, x, y) && x >= dc.x + i then Painted(dc.text, x - dc.x) else cells[y * w + x]
    decreases |dc.text.text| - i
  {
    RowMajorInBounds(w, h, x, y);
    if i >= |dc.text.text| || dc.x + i >= w || dc.y >= h {
    } else {
      RowMajorInBounds(w, h, dc.x + i, dc.y);
      var next := cells[dc.y * w + dc.x + i := Painted(dc.text, i)];
      assert PaintRun(w, h, cells, dc, i) == PaintRun(w, h, next, dc, i + 1);
      PaintRunFromAt(w, h, next, dc, i + 1, x, y);
      UpdateAt(w, h, cells, dc.x + i, dc.y, Painted(dc.text, i), x, y);
    }
  }

  /** Writing one cell of the grid changes that position and no other. */
  lemma UpdateAt(w: nat, h: nat, cells: seq<Cell>, x: nat, y: nat, c: Cell, x2: nat, y2: nat)
    requires |cells| == w * h && x < w && y < h && x2 < w && y2 < h
    ensures y * w + x < |cells| && y2 * w + x2 < |cells|
    ensures cells[y * w + x := c][y2 * w + x2] == if x == x2 && y == y2 then c else cells[y2 * w + x2]
  {
    RowMajorInBounds(w, h, x, y);
    RowMajorInBounds(w, h, x2, y2);
    RowMajorInjective(w, x, y, x2, y2);
  }

  /** One draw call paints every position it covers with its own character and leaves every
      other cell as it was. */
  lemma PaintRunAt(w: nat, h: nat, cells: seq<Cell>, dc: DrawCall, x: nat, y: nat)
    requires |cells| == w * h && x < w && y < h
    ensures y * w + x < |cells|
    ensures PaintRun(w, h, cells, dc, 0)[y * w + x] ==
      if Covers(dc, x, y) then Painted(dc.text, x - dc.x) else cells[y * w + x]
  {
    PaintRunFromAt(w, h, cells, dc, 0, x, y);
  }

  /** `compose_buffer` over the grid as a sequence: the draw calls painted in order. */
  function Compose(w: nat, h: nat, cells: seq<Cell>, calls: seq<DrawCall>): (r: seq<Cell>)
    requires |cells| == w * h
    ensures |r| == |cells|
    decreases |calls|
  {
    if |calls| == 0 then cells
    else PaintRun(w, h, Compose(w, h, cells, calls[..|calls| - 1]), calls[|calls| - 1], 0)
  }

  /** The last of `calls` that covers column `x` of row `y`, if any. */
  function LastCover(calls: seq<DrawCall>, x: nat, y: nat): (r: Option<nat>)
    ensures r.None? <==> forall j :: 0 <= j < |calls| ==> !Covers(calls[j], x, y)
    ensures r.Some? ==> (r.value < |calls| && Covers(calls[r.value], x, y) &&
      forall j :: r.value < j < |calls| ==> !Covers(calls[j], x, y))
    decreases |calls|
  {
    if |calls| == 0 then None
    else if Covers(calls[|calls| - 1], x, y) then Some(|calls| - 1)
    else
      var r := LastCover(calls[..|calls| - 1], x, y);
      assert forall j :: 0 <= j < |calls| - 1 ==> calls[..|calls| - 1][j] == calls[j];
      r
  }

  /** What composing leaves in a cell: the cell as it was if no call covers it, else the
      character of the last call that does, in that call's colours and weight. */
  lemma {:induction false} ComposeAt(w: nat, h: nat, cells: seq<Cell>, calls: seq<DrawCall>, x: nat, y: nat)
    requires |cells| == w * h && x < w && y < h
    ensures y * w + x < |cells|
    ensures Compose(w, h, cells, calls)[y * w + x] ==
      match LastCover(calls, x, y)
      case None => cells[y * w + x]
      case Some(j) => Painted(calls[j].text, x - calls[j].x)
    decreases |calls|
  {
    RowMajorInBounds(w, h, x, y);
    if |calls| > 0 {
      var prefix := calls[..|calls| - 1];
      ComposeAt(w, h, cells, prefix, x, y);
      PaintRunAt(w, h, Compose(w, h, cells, prefix), calls[|calls| - 1], x, y);
    }
  }

  /** A cell that no call covers keeps its old value. */
  lemma ComposeUncovered(w: nat, h: nat, cells: seq<Cell>, calls: seq<DrawCall>, x: nat, y: nat)
    requires |cells| == w * h && x < w && y < h
    requires forall j :: 0 <= j < |calls| ==> !Covers(calls[j], x, y)
    ensures y * w + x < |cells|
    ensures Compose(w, h, cells, calls)[y * w + x] == cells[y * w + x]
  {
    ComposeAt(w, h, cells, calls, x, y);
  }

  /** A later call wins: the cell shows call `j`'s character whenever `j` covers it and no
      later call does, whatever earlier calls painted there. */
  lemma ComposeLaterWins(w: nat, h: nat, cells: seq<Cell>, calls: seq<DrawCall>, j: nat, x: nat, y: nat)
    requires |cells| == w * h && x < w && y < h
    requires j < |calls| && Covers(calls[j], x, y)
    requires forall k :: j < k < |calls| ==> !Covers(calls[k], x, y)
    ensures y * w + x < |cells|
    ensures Compose(w, h, cells, calls)[y * w + x] == Painted(calls[j].text, x - calls[j].x)
  {
    ComposeAt(w, h, cells, calls, x, y);
  }

  /** `compose_buffer`: paints each draw call's characters left to right from its anchor,
      stopping at the end of the text or at the first position off the right or bottom edge. */
  method ComposeBuffer(buf: ScreenBuffer, calls: seq<DrawCall>)
    requires buf.Valid()
    modifies buf.cells
    ensures buf.cells[..] == Compose(buf.width, buf.height, old(buf.cells[..]), calls)
  {
    var w, h, cells := buf.width, buf.height, buf.cells;
    ghost var start := cells[..];
    for j := 0 to |calls|
      invariant cells[..] == Compose(w, h, start, calls[..j])
    {
      PaintCall(cells, w, h, calls[j]);
      assert calls[..j + 1][..j] == calls[..j];
    }
    assert calls[..|calls|] == calls;
  }

  /** The inner loop of `compose_buffer` for one draw call: its characters left to right,
      stopping at the end of the text or at the right or bottom edge of the grid. */
  method PaintCall(cells: array<Cell>, w: nat, h: nat, dc: DrawCall)
    requires cells.Length == w * h
    modifies cells
    ensures cells[..] == PaintRun(w, h, old(cells[..]), dc, 0)
  {
    ghost var before := cells[..];
    var px := dc.x;
    var y := dc.y;
    var i := 0;
    while i < |dc.text.text|
      invariant i <= |dc.text.text| && px == dc.x + i
      invariant PaintRun(w, h, cells[..], dc, i) == PaintRun(w, h, before, dc, 0)
      decreases |dc.text.text| - i
    {
      if px >= w || y >= h {
        break;
      }
      RowMajorInBounds(w, h, px, y);
      cells[y * w + px] := Painted(dc.text, i);
      px := px + 1;
      i := i + 1;
    }
  }

  /** `fill_screen_background`: every cell becomes a blank in opaque black on `bg`, not
      bold; the number of cells does not change. */
  method FillScreenBackground(buf: ScreenBuffer, bg: Rgba)
    requires buf.Valid()
    modifies buf.cells
    ensures buf.Valid()
    ensures forall i :: 0 <= i < buf.cells.Length ==> buf.cells[i] == BackgroundCell(bg)
  {
    var cells := buf.cells;
    for i := 0 to cells.Length
      invariant forall k :: 0 <= k < i ==> cells[k] == BackgroundCell(bg)
    {
      cells[i] := BackgroundCell(bg);
    }
  }

  // ---------------------------------------------------------------- diffing

  type Diff = (nat, nat, Cell)

  /** The cell at column `x` of row `y` of a grid `w` wide, or a blank if the grid is too
      short (positions the diff reads are always inside both grids). */
  function At(w: nat, cells: seq<Cell>, x: nat, y: nat): Cell
  {
    if y * w + x < |cells| then cells[y * w + x] else Cell(' ', OPAQUE_BLACK, OPAQUE_BLACK, false)
  }

  /** The entries the inner loop of `diff_buffers` pushes for columns 0 .. x-1 of row `y`. */
  function RowDiff(wa: nat, a: seq<Cell>, wb: nat, b: seq<Cell>, y: nat, x: nat): seq<Diff>
  {
    if x == 0 then []
    else
      RowDiff(wa, a, wb, b, y, x - 1) +
      (if CellsDiffer(At(wa, a, x - 1, y), At(wb, b, x - 1, y)) then [(x - 1, y, At(wb, b, x - 1, y))] else [])
  }

  /** The entries the outer loop pushes for rows 0 .. y-1, each `w` columns wide. */
  function RowsDiff(wa: nat, a: seq<Cell>, wb: nat, b: seq<Cell>, w: nat, y: nat): seq<Diff>
  {
    if y == 0 then [] else RowsDiff(wa, a, wb, b, w, y - 1) + RowDiff(wa, a, wb, b, y - 1, w)
  }

  /** The full diff over the overlap of the two grids. */
  function DiffSpec(wa: nat, ha: nat, a: seq<Cell>, wb: nat, hb: nat, b: seq<Cell>): seq<Diff>
  {
    RowsDiff(wa, a, wb, b, Min(wa, wb), Min(ha, hb))
  }

  /** Row-major order: earlier row, or same row and earlier column. */
  predicate Before(p: Diff, q: Diff)
  {
    p.1 < q.1 || (p.1 == q.1 && p.0 < q.0)
  }

  predicate RowMajorOrdered(s: seq<Diff>)
  {
    forall i, j :: 0 <= i < j < |s| ==> Before(s[i], s[j])
  }

  /** An entry of a row's diff: a column before `x` of that row whose cells differ, carrying
      the new grid's cell; and every such column appears. */
  lemma {:induction false} RowDiffMembers(wa: nat, a: seq<Cell>, wb: nat, b: seq<Cell>, y: nat, x: nat, d: Diff)
    ensures d in RowDiff(wa, a, wb, b, y, x) <==>
      d.1 == y && d.0 < x && CellsDiffer(At(wa, a, d.0, y), At(wb, b, d.0, y)) && d.2 == At(wb, b, d.0, y)
  {
    if x > 0 {
      RowDiffMembers(wa, a, wb, b, y, x - 1, d);
    }
  }

  /** A row's diff lies in that row, in strictly increasing columns, all before column `x`. */
  lemma {:induction false} RowDiffOrdered(wa: nat, a: seq<Cell>, wb: nat, b: seq<Cell>, y: nat, x: nat)
    ensures RowMajorOrdered(RowDiff(wa, a, wb, b, y, x))
    ensures forall d :: d in RowDiff(wa, a, wb, b, y, x) ==> d.1 == y && d.0 < x
  {
    if x > 0 {
      RowDiffOrdered(wa, a, wb, b, y, x - 1);
      forall d | d in RowDiff(wa, a, wb, b, y, x) ensures d.1 == y && d.0 < x {
        RowDiffMembers(wa, a, wb, b, y, x, d);
      }
    }
  }

  /** The diff of rows before `y`: exactly the differing positions of those rows within `w`
      columns, in row-major order. */
  lemma {:induction false} RowsDiffMembers(wa: nat, a: seq<Cell>, wb: nat, b: seq<Cell>, w: nat, y: nat, d: Diff)
    ensures d in RowsDiff(wa, a, wb, b, w, y) <==>
      d.1 < y && d.0 < w && CellsDiffer(At(wa, a, d.0, d.1), At(wb, b, d.0, d.1)) && d.2 == At(wb, b, d.0, d.1)
  {
    if y > 0 {
      var s, t := RowsDiff(wa, a, wb, b, w, y - 1), RowDiff(wa, a, wb, b, y - 1, w);
      assert RowsDiff(wa, a, wb, b, w, y) == s + t;
      RowsDiffMembers(wa, a, wb, b, w, y - 1, d);
      RowDiffMembers(wa, a, wb, b, y - 1, w, d);
      if d.1 == y - 1 {
        assert d !in s;
      } else {
        assert d !in t;
      }
    }
  }

  lemma {:induction false} RowsDiffOrdered(wa: nat, a: seq<Cell>, wb: nat, b: seq<Cell>, w: nat, y: nat)
    ensures RowMajorOrdered(RowsDiff(wa, a, wb, b, w, y))
    ensures forall d :: d in RowsDiff(wa, a, wb, b, w, y) ==> d.1 < y
  {
    if y > 0 {
      var s, t := RowsDiff(wa, a, wb, b, w, y - 1), RowDiff(wa, a, wb, b, y - 1, w);
      RowsDiffOrdered(wa, a, wb, b, w, y - 1);
      RowDiffOrdered(wa, a, wb, b, y - 1, w);
      forall i, j | 0 <= i < j < |s + t| ensures Before((s + t)[i], (s + t)[j]) {
        if j < |s| {
        } else if i >= |s| {
          assert (s + t)[i] == t[i - |s|] && (s + t)[j] == t[j - |s|];
        } else {
          assert (s + t)[i] == s[i] && s[i] in s;
          assert (s + t)[j] == t[j - |s|] && t[j - |s|] in t;
        }
      }
    }
  }

  /** The diff holds, for every position in the overlap of the two grids whose cells differ,
      its column, row and new cell, and nothing else. */
  lemma DiffSpecSoundAndComplete(wa: nat, ha: nat, a: seq<Cell>, wb: nat, hb: nat, b: seq<Cell>, x: nat, y: nat, c: Cell)
    ensures (x, y, c) in DiffSpec(wa, ha, a, wb, hb, b) <==>
      x < Min(wa, wb) && y < Min(ha, hb) && At(wa, a, x, y) != At(wb, b, x, y) && c == At(wb, b, x, y)
  {
    RowsDiffMembers(wa, a, wb, b, Min(wa, wb), Min(ha, hb), (x, y, c));
  }

  /** The diff lists its entries in strictly row-major order. */
  lemma DiffSpecOrdered(wa: nat, ha: nat, a: seq<Cell>, wb: nat, hb: nat, b: seq<Cell>)
    ensures RowMajorOrdered(DiffSpec(wa, ha, a, wb, hb, b))
  {
    RowsDiffOrdered(wa, a, wb, b, Min(wa, wb), Min(ha, hb));
  }

  /** Diffing a grid against an identical one gives nothing to repaint. */
  lemma DiffSpecOfIdentical(w: nat, h: nat, a: seq<Cell>, b: seq<Cell>)
    requires a == b
    ensures DiffSpec(w, h, a, w, h, b) == []
  {
    var s := DiffSpec(w, h, a, w, h, b);
    if s != [] {
      RowsDiffMembers(w, a, w, b, Min(w, w), Min(h, h), s[0]);
    }
  }

  /** A position inside a buffer's grid is stored at its row-major index. */
  lemma CellIsAt(buffer: ScreenBuffer, x: nat, y: nat)
    requires buffer.Valid() && x < buffer.width && y < buffer.height
    ensures y * buffer.width + x < buffer.cells.Length
    ensures buffer.cells[y * buffer.width + x] == At(buffer.width, buffer.cells[..], x, y)
  {
    RowMajorInBounds(buffer.width, buffer.height, x, y);
  }

  /** `Screen`: the buffer last shown and the buffer being drawn. */
  class Screen {
    const width: nat
    const height: nat
    var oldBuffer: ScreenBuffer
    var newBuffer: ScreenBuffer

    ghost predicate Valid()
      reads this
    {
      oldBuffer.Valid() && newBuffer.Valid() && oldBuffer != newBuffer && oldBuffer.cells != newBuffer.cells
    }

    /** `Screen::new`: two separate buffers built from the same default background, so they
        start out equal cell for cell. */
    constructor (width: nat, height: nat, defaultBg: Rgba)
      ensures Valid() && this.width == width && this.height == height
      ensures fresh(oldBuffer) && fresh(newBuffer) && fresh(oldBuffer.cells) && fresh(newBuffer.cells)
      ensures oldBuffer.width == newBuffer.width == width && oldBuffer.height == newBuffer.height == height
      ensures forall i :: 0 <= i < oldBuffer.cells.Length ==> oldBuffer.cells[i] == DefaultCell(defaultBg)
      ensures oldBuffer.cells[..] == newBuffer.cells[..]
    {
      this.width := width;
      this.height := height;
      var o := new ScreenBuffer(width, height, defaultBg);
      var n := new ScreenBuffer(width, height, defaultBg);
      oldBuffer := o;
      newBuffer := n;
      assert o.cells[..] == n.cells[..];
    }

    /** `swap_buffers`: the two buffers change places; neither is touched. */
    method SwapBuffers()
      requires Valid()
      modifies this
      ensures Valid()
      ensures oldBuffer == old(newBuffer) && newBuffer == old(oldBuffer)
    {
      oldBuffer, newBuffer := newBuffer, oldBuffer;
    }

    /** `diff_buffers`: for each row, then each column, of the overlap of the two buffers,
        the position and new cell wherever the old and new cells differ. */
    method DiffBuffers() returns (diffs: seq<Diff>)
      requires Valid()
      ensures diffs == DiffSpec(oldBuffer.width, oldBuffer.height, oldBuffer.cells[..],
                                newBuffer.width, newBuffer.height, newBuffer.cells[..])
    {
      var h := Min(oldBuffer.height, newBuffer.height);
      var w := Min(oldBuffer.width, newBuffer.width);
      diffs := [];
      for y := 0 to h
        invariant diffs == RowsDiff(oldBuffer.width, oldBuffer.cells[..], newBuffer.width, newBuffer.cells[..], w, y)
      {
        var row := DiffRow(y, w);
        diffs := diffs + row;
      }
    }

    /** The inner loop of `diff_buffers` for row `y`: the columns of the overlap, left to right,
        where the old and new cells differ. */
    method DiffRow(y: nat, w: nat) returns (row: seq<Diff>)
      requires Valid() && y < Min(oldBuffer.height, newBuffer.height) && w == Min(oldBuffer.width, newBuffer.width)
      ensures row == RowDiff(oldBuffer.width, oldBuffer.cells[..], newBuffer.width, newBuffer.cells[..], y, w)
    {
      var old_, new_ := oldBuffer, newBuffer;
      ghost var a, b := old_.cells[..], new_.cells[..];
      row := [];
      for x := 0 to w
        invariant row == RowDiff(old_.width, a, new_.width, b, y, x)
      {
        CellIsAt(old_, x, y);
        CellIsAt(new_, x, y);
        var ca := old_.cells[y * old_.width + x];
        var cb := new_.cells[y * new_.width + x];
        if ca.ch != cb.ch || ca.fg != cb.fg || ca.bg != cb.bg || ca.bold != cb.bold {
          row := row + [(x, y, cb)];
        }
      }
    }
  }

  /** A freshly built screen has nothing to repaint until something is drawn. */
  lemma NewScreenDiffIsEmpty(s: Screen)
    requires s.Valid()
    requires s.oldBuffer.width == s.newBuffer.width && s.oldBuffer.height == s.newBuffer.height
    requires s.oldBuffer.cells[..] == s.newBuffer.cells[..]
    ensures DiffSpec(s.oldBuffer.width, s.oldBuffer.height, s.oldBuffer.cells[..],
                     s.newBuffer.width, s.newBuffer.height, s.newBuffer.cells[..]) == []
  {
    DiffSpecOfIdentical(s.oldBuffer.width, s.oldBuffer.height, s.oldBuffer.cells[..], s.newBuffer.cells[..]);
  }
}
