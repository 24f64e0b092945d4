/** Model of src/engine/draw.rs: producers appending draw calls to the engine's queue. */
module EngineDraw {
  import opened Basics
  import opened EngineColor
  import opened EngineRichText
  import EngineScreen

  type I16 = x: int | -0x8000 <= x < 0x8000

  /** `u16 as i16`: the same sixteen bits read as a two's-complement number. */
  function U16AsI16(u: nat): (r: I16)
    requires u <= 0xFFFF
    ensures r == u || r == u - 0x1_0000
    ensures r >= 0 <==> u < 0x8000
  {
    if u < 0x8000 then u else u - 0x1_0000
  }

  datatype Pos = Pos(x: I16, y: I16)
  datatype Size = Size(width: I16, height: I16)

  /** `DrawCall`: a styled text run whose first character goes to column x of row y. */
  datatype DrawCall = DrawCall(richText: RichText, x: I16, y: I16)

  /** The row text of `draw_rect`: `width` spaces, clear ink, the rectangle's colour behind. */
  function RectRowText(width: nat, color: Color): (t: RichText)
    ensures t.text == Spaces(width) && t.fg == CLEAR && t.bg == color && t.attributes == EMPTY && Flags(t.attributes) == {}
  {
    Bg(Fg(EngineRichText.New(Spaces(width)), CLEAR), color)
  }

  /** The calls `draw_rect` appends for rows `from` .. `height - 1`, one per row, in order. */
  function RectRows(rowText: RichText, x: I16, y: I16, from: nat, height: int): seq<DrawCall>
    requires height <= 0 || y + height - 1 < 0x8000
    decreases height - from
  {
    if from as int >= height then []
    else [DrawCall(rowText, x, y + from)] + RectRows(rowText, x, y, from + 1, height)
  }

  /** `draw_rect` yields max(height, 0) calls; call r is at (x, y + r), all with the same text. */
  lemma {:induction false} RectRowsShape(rowText: RichText, x: I16, y: I16, from: nat, height: int)
    requires height <= 0 || y + height - 1 < 0x8000
    ensures var calls := RectRows(rowText, x, y, from, height);
      |calls| == (if height <= from as int then 0 else height - from) &&
      forall k :: 0 <= k < |calls| ==>
        calls[k] == DrawCall(rowText, x, y + from + k)
    decreases height - from
  {
    if from as int < height {
      RectRowsShape(rowText, x, y, from + 1, height);
    }
  }

  /** The same calls in a closed form: row r carries y + r, so the rows ascend. */
  function RectCalls(pos: Pos, size: Size, color: Color): (calls: seq<DrawCall>)
    requires size.width >= 0
    requires size.height <= 0 || pos.y + size.height - 1 < 0x8000
    ensures |calls| == if size.height <= 0 then 0 else size.height
    ensures forall r :: 0 <= r < |calls| ==>
      calls[r].x == pos.x && calls[r].y == pos.y + r && calls[r].richText == RectRowText(size.width, color)
    ensures forall r, s :: 0 <= r < s < |calls| ==> calls[r].y < calls[s].y
  {
    RectRowsShape(RectRowText(size.width, color), pos.x, pos.y, 0, size.height);
    RectRows(RectRowText(size.width, color), pos.x, pos.y, 0, size.height)
  }

  /** The part of `Engine` the draw functions use: the draw queue and the screen size. */
  class Engine {
    var drawQueue: seq<DrawCall>
    var screen: EngineScreen.Screen

    constructor (screen: EngineScreen.Screen)
      ensures this.screen == screen && drawQueue == []
    {
      this.screen := screen;
      drawQueue := [];
    }

    /** `draw_text`: one call carrying the position and the text is appended. */
    method DrawText(pos: Pos, text: RichText)
      modifies this
      ensures drawQueue == old(drawQueue) + [DrawCall(text, pos.x, pos.y)]
      ensures screen == old(screen)
    {
      drawQueue := drawQueue + [DrawCall(text, pos.x, pos.y)];
    }

    /** `draw_rect`: one `width`-space call per row 0 .. height - 1. The width is cast with
        `as usize`, a negative one would ask for an impossible allocation, and `pos.y + row`
        must stay an `i16`. */
    method DrawRect(pos: Pos, size: Size, color: Color)
      requires size.width >= 0
      requires size.height <= 0 || pos.y + size.height - 1 < 0x8000
      modifies this
      ensures drawQueue == old(drawQueue) + RectCalls(pos, size, color)
      ensures screen == old(screen)
    {
      var rowText := RectRowText(size.width, color);
      var row: nat := 0;
      while row < size.height
        invariant size.height > 0 ==> row <= size.height
        invariant drawQueue + RectRows(rowText, pos.x, pos.y, row, size.height) == old(drawQueue) + RectCalls(pos, size, color)
        invariant screen == old(screen)
      {
        ghost var rest := RectRows(rowText, pos.x, pos.y, row + 1, size.height);
        DrawText(Pos(pos.x, pos.y + row), rowText);
        assert drawQueue + rest == old(drawQueue) + RectCalls(pos, size, color);
        row := row + 1;
      }
    }

    /** `fill_screen`: `draw_rect` at (0, 0) with the screen's size. The `u16` columns and rows
        are cast to `i16`; a column count above 32767 turns negative, which the allocation
        refuses, a row count above 32767 turns negative and draws nothing. */
    method FillScreen(color: Color)
      requires screen.cols <= 0x7FFF && screen.rows <= 0xFFFF
      modifies this
      ensures screen == old(screen)
      ensures drawQueue == old(drawQueue) +
        RectCalls(Pos(0, 0), Size(screen.cols, U16AsI16(screen.rows)), color)
    {
      var cols: I16 := U16AsI16(screen.cols);
      var rows: I16 := U16AsI16(screen.rows);
      DrawRect(Pos(0, 0), Size(cols, rows), color);
    }
  }

  /** What `fill_screen` appends: one full-width row of spaces per screen row, top to bottom. */
  lemma FillScreenCalls(cols: nat, rows: nat, color: Color)
    requires cols <= 0x7FFF && rows <= 0x7FFF
    ensures var calls := RectCalls(Pos(0, 0), Size(cols, U16AsI16(rows)), color);
      |calls| == rows &&
      forall r :: 0 <= r < rows ==>
        calls[r].x == 0 && calls[r].y == r && |calls[r].richText.text| == cols &&
        calls[r].richText.bg == color
  {
  }
}
