/** Model of src/engine/rich_text.rs: the attribute bit-set and the styled text builder. */
module EngineRichText {
  import opened EngineColor

  /** `Attributes: u8` (bitflags). */
  type Attributes = bv8

  const EMPTY: Attributes := 0
  const BOLD: Attributes := 0x01
  const ITALIC: Attributes := 0x02
  const UNDERLINED: Attributes := 0x04
  const HIDDEN: Attributes := 0x08

  /** The bits that name a declared flag. */
  const ALL: Attributes := BOLD | ITALIC | UNDERLINED | HIDDEN

  datatype Flag = Bold | Italic | Underlined | Hidden

  function Bit(f: Flag): Attributes
  {
    match f
    case Bold => BOLD
    case Italic => ITALIC
    case Underlined => UNDERLINED
    case Hidden => HIDDEN
  }

  predicate Contains(a: Attributes, f: Flag)
  {
    a & Bit(f) == Bit(f)
  }

  /** A value with no undeclared bit, as every value built from the flags is. */
  predicate Known(a: Attributes)
  {
    a & ALL == a
  }

  /** The set of flags an attribute value holds. */
  function Flags(a: Attributes): (s: set<Flag>)
    ensures forall f :: f in s <==> Contains(a, f)
  {
    set f | f in {Bold, Italic, Underlined, Hidden} && Contains(a, f)
  }

  /** Each flag is a single bit, and the four bits are different. */
  lemma FlagsAreDistinctSingleBits(f: Flag, g: Flag)
    ensures Bit(f) != 0 && Bit(f) & (Bit(f) - 1) == 0
    ensures f != g ==> Bit(f) & Bit(g) == 0
  {
  }

  /** One flag is in `a | b` exactly when it is in `a` or in `b`. */
  lemma ContainsUnion(a: Attributes, b: Attributes, f: Flag)
    ensures Contains(a | b, f) <==> Contains(a, f) || Contains(b, f)
  {
    match f
    case Bold =>
    case Italic =>
    case Underlined =>
    case Hidden =>
  }

  /** `|` on attribute values is union of their flag sets. */
  function Union(a: Attributes, b: Attributes): (u: Attributes)
    ensures Flags(u) == Flags(a) + Flags(b)
    ensures Known(a) && Known(b) ==> Known(u)
  {
    UnionFlags(a, b);
    KnownUnion(a, b);
    a | b
  }

  lemma UnionFlags(a: Attributes, b: Attributes)
    ensures Flags(a | b) == Flags(a) + Flags(b)
  {
    forall f ensures f in Flags(a | b) <==> f in Flags(a) + Flags(b) {
      ContainsUnion(a, b, f);
    }
  }

  /** No undeclared bit appears in the union of two values without one. */
  lemma KnownUnion(a: Attributes, b: Attributes)
    ensures Known(a) && Known(b) ==> Known(a | b)
  {
  }

  /** For values built from the flags, equality is equality of flag sets. */
  lemma {:induction false} KnownEqualIffSameFlags(a: Attributes, b: Attributes)
    requires Known(a) && Known(b)
    ensures a == b <==> Flags(a) == Flags(b)
  {
    if Flags(a) == Flags(b) {
      assert Contains(a, Bold) == Contains(b, Bold);
      assert Contains(a, Italic) == Contains(b, Italic);
      assert Contains(a, Underlined) == Contains(b, Underlined);
      assert Contains(a, Hidden) == Contains(b, Hidden);
    }
  }

  /** `Attributes::empty()` holds no flag. */
  lemma EmptyHasNoFlags()
    ensures Flags(EMPTY) == {}
  {
    assert forall f :: !Contains(EMPTY, f);
  }

  datatype RichText = RichText(text: string, fg: Color, bg: Color, attributes: Attributes)

  /** `RichText::new`: the text as given, white ink on the clear colour, no attributes. */
  function New(text: string): (t: RichText)
    ensures t.text == text && t.fg == WHITE && t.bg == CLEAR && t.attributes == EMPTY && Flags(t.attributes) == {}
  {
    EmptyHasNoFlags();
    RichText(text, WHITE, CLEAR, EMPTY)
  }

  /** The consuming builder `fg`: only the foreground changes. */
  function Fg(t: RichText, color: Color): (r: RichText)
    ensures r.fg == color && r.text == t.text && r.bg == t.bg && r.attributes == t.attributes
  {
    t.(fg := color)
  }

  /** The consuming builder `bg`: only the background changes. */
  function Bg(t: RichText, color: Color): (r: RichText)
    ensures r.bg == color && r.text == t.text && r.fg == t.fg && r.attributes == t.attributes
  {
    t.(bg := color)
  }

  /** The consuming builder `attributes`: only the attribute set changes. */
  function WithAttributes(t: RichText, attributes: Attributes): (r: RichText)
    ensures r.attributes == attributes && r.text == t.text && r.fg == t.fg && r.bg == t.bg
  {
    t.(attributes := attributes)
  }

  /** `From<String>` and `From<&str>`: both are `RichText::new` of the string. */
  function From(s: string): (t: RichText)
    ensures t == New(s)
  {
    New(s)
  }

  /** The builders touch disjoint fields, so their order does not matter. */
  lemma BuildersCommute(t: RichText, f: Color, b: Color, a: Attributes)
    ensures Fg(Bg(t, b), f) == Bg(Fg(t, f), b)
    ensures WithAttributes(Fg(t, f), a) == Fg(WithAttributes(t, a), f)
    ensures WithAttributes(Bg(t, b), a) == Bg(WithAttributes(t, a), b)
  {
  }
}
