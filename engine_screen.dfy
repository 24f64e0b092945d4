/** Model of src/engine/screen.rs: the engine's pair of cell buffers. */
module EngineScreen {
  import opened EngineColor
  import opened EngineRichText

  const U16_MAX: nat := 0xFFFF

  datatype TerminalCell = TerminalCell(ch: char, fg: PackedRgba, bg: PackedRgba, attributes: Attributes)

  /** `Screen`: the terminal size and the two row-major buffers (`ScreenBuffer(Vec<TerminalCell>)`). */
  datatype Screen = Screen(cols: nat, rows: nat, currentBuffer: seq<TerminalCell>, lastBuffer: seq<TerminalCell>)

  /** The cell every slot of the current buffer starts as. */
  const BLANK_CURRENT := TerminalCell(' ', WHITE, BLACK, EMPTY)
  /** The cell every slot of the last buffer starts as: black ink, so it differs from the current one. */
  const BLANK_LAST := TerminalCell(' ', BLACK, BLACK, EMPTY)

  /** `Screen::new(cols, rows)`. The capacity is the `u16` product `cols * rows`, which must
      not overflow (a panic in a debug build). */
  function NewScreen(cols: nat, rows: nat): (s: Screen)
    requires cols <= U16_MAX && rows <= U16_MAX && cols * rows <= U16_MAX
    ensures s.cols == cols && s.rows == rows
    ensures |s.currentBuffer| == cols * rows && |s.lastBuffer| == cols * rows
    ensures forall i :: 0 <= i < |s.currentBuffer| ==>
      s.currentBuffer[i].ch == ' ' && s.currentBuffer[i].fg == WHITE &&
      s.currentBuffer[i].bg == BLACK && s.currentBuffer[i].attributes == EMPTY && Flags(s.currentBuffer[i].attributes) == {}
    ensures forall i :: 0 <= i < |s.lastBuffer| ==>
      s.lastBuffer[i].ch == ' ' && s.lastBuffer[i].fg == BLACK &&
      s.lastBuffer[i].bg == BLACK && s.lastBuffer[i].attributes == EMPTY && Flags(s.lastBuffer[i].attributes) == {}
  {
    EmptyHasNoFlags();
    var capacity := cols * rows;
    Screen(cols, rows, seq(capacity, _ => BLANK_CURRENT), seq(capacity, _ => BLANK_LAST))
  }

  /** The two fresh buffers differ at every index, and in the foreground only, so the first
      frame redraws every cell. */
  lemma FirstFrameRedrawsEveryCell(cols: nat, rows: nat)
    requires cols <= U16_MAX && rows <= U16_MAX && cols * rows <= U16_MAX
    ensures var s := NewScreen(cols, rows);
      forall i :: 0 <= i < cols * rows ==>
        s.currentBuffer[i] != s.lastBuffer[i] &&
        s.currentBuffer[i].ch == s.lastBuffer[i].ch &&
        s.currentBuffer[i].bg == s.lastBuffer[i].bg &&
        s.currentBuffer[i].attributes == s.lastBuffer[i].attributes
  {
    var s := NewScreen(cols, rows);
    WhiteIsNotBlack();
    EmptyHasNoFlags();
    forall i | 0 <= i < cols * rows
      ensures s.currentBuffer[i].attributes == s.lastBuffer[i].attributes
    {
      KnownEqualIffSameFlags(s.currentBuffer[i].attributes, s.lastBuffer[i].attributes);
    }
  }
}
