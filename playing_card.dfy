/** Model of src/playing_card.rs: suits, ranks, the standard deck and the draw calls that
    picture a card, small (one row) or big (three rows, clipped at the top and left edges). */
module PlayingCard {
  import opened Wrappers
  import opened Basics
  import opened Renderer

  /** `Suit`, in declaration order, which is its derived `Ord`. */
  datatype Suit = Spade | Heart | Club | Diamond

  /** `Rank`, in declaration order, which is its derived `Ord`: Ace is the least. */
  datatype Rank = Ace | King | Queen | Jack | Num10 | Num9 | Num8 | Num7 | Num6 | Num5 | Num4 | Num3 | Num2

  /** Position in the derived order of `Suit`. */
  function SuitOrder(s: Suit): (i: nat)
    ensures i < 4
  {
    match s
    case Spade => 0
    case Heart => 1
    case Club => 2
    case Diamond => 3
  }

  /** Position in the derived order of `Rank`. */
  function RankOrder(r: Rank): (i: nat)
    ensures i < 13
  {
    match r
    case Ace => 0
    case King => 1
    case Queen => 2
    case Jack => 3
    case Num10 => 4
    case Num9 => 5
    case Num8 => 6
    case Num7 => 7
    case Num6 => 8
    case Num5 => 9
    case Num4 => 10
    case Num3 => 11
    case Num2 => 12
  }

  /** `PlayingCard`. */
  datatype PlayingCard = PlayingCard(suit: Suit, rank: Rank)

  /** The colours of src/constants.rs:6-25. */
  const SUIT_COLOR_BLACK := Rgba(0, 0, 0, 1.0)
  const SUIT_COLOR_RED := Rgba(200, 0, 0, 1.0)
  const DEFAULT_CARD_BG_COLOR := Rgba(255, 255, 255, 1.0)

  /** `Suit::repr`: the suit's one-character glyph. */
  function SuitRepr(s: Suit): (g: string)
    ensures |g| == 1
  {
    match s
    case Spade => "\U{2660}"
    case Heart => "\U{2665}"
    case Club => "\U{2663}"
    case Diamond => "\U{2666}"
  }

  /** `Rank::repr`: one character, except two for the ten. */
  function RankRepr(r: Rank): (t: string)
    ensures |t| == (if r == Num10 then 2 else 1)
    ensures forall i :: 0 <= i < |t| ==> t[i] != 'S' && t[i] != '>'
  {
    match r
    case Ace => "A"
    case King => "K"
    case Queen => "Q"
    case Jack => "J"
    case Num10 => "10"
    case Num9 => "9"
    case Num8 => "8"
    case Num7 => "7"
    case Num6 => "6"
    case Num5 => "5"
    case Num4 => "4"
    case Num3 => "3"
    case Num2 => "2"
  }

  /** Distinct suits have distinct glyphs and distinct ranks distinct texts. */
  lemma ReprsAreInjective(s1: Suit, s2: Suit, r1: Rank, r2: Rank)
    ensures SuitRepr(s1) == SuitRepr(s2) ==> s1 == s2
    ensures RankRepr(r1) == RankRepr(r2) ==> r1 == r2
  {
  }

  /** `Suit::color`: black for spades and clubs, red for hearts and diamonds. */
  function SuitColor(s: Suit): (c: Rgba)
    ensures c == (if s == Spade || s == Club then SUIT_COLOR_BLACK else SUIT_COLOR_RED)
    ensures c != SUIT_COLOR_BLACK <==> s == Heart || s == Diamond
  {
    match s
    case Spade => SUIT_COLOR_BLACK
    case Heart => SUIT_COLOR_RED
    case Club => SUIT_COLOR_BLACK
    case Diamond => SUIT_COLOR_RED
  }

  /** `Suit::iter`. */
  const ALL_SUITS: seq<Suit> := [Spade, Heart, Club, Diamond]

  /** `Rank::iter`. */
  const ALL_RANKS: seq<Rank> := [Ace, King, Queen, Jack, Num10, Num9, Num8, Num7, Num6, Num5, Num4, Num3, Num2]

  /** The iterators list every value once, in the derived order. */
  lemma IterationOrders()
    ensures |ALL_SUITS| == 4 && |ALL_RANKS| == 13
    ensures forall i :: 0 <= i < 4 ==> SuitOrder(ALL_SUITS[i]) == i
    ensures forall i :: 0 <= i < 13 ==> RankOrder(ALL_RANKS[i]) == i
    ensures forall s: Suit :: ALL_SUITS[SuitOrder(s)] == s
    ensures forall r: Rank :: ALL_RANKS[RankOrder(r)] == r
  {
    forall s: Suit ensures ALL_SUITS[SuitOrder(s)] == s {
      match s
      case Spade => case Heart => case Club => case Diamond =>
    }
  }

  /** The cards of one suit, ranks in iteration order (the inner `map`). */
  function SuitRun(s: Suit): (run: seq<PlayingCard>)
    ensures |run| == 13
    ensures forall i :: 0 <= i < 13 ==> run[i] == PlayingCard(s, ALL_RANKS[i])
  {
    seq(13, i requires 0 <= i < 13 => PlayingCard(s, ALL_RANKS[i]))
  }

  /** The runs of the suits from position `k` of `Suit::iter` on (the `flat_map`). */
  function DeckFrom(k: nat): seq<PlayingCard>
    requires k <= 4
    decreases 4 - k
  {
    if k == 4 then [] else SuitRun(ALL_SUITS[k]) + DeckFrom(k + 1)
  }

  /** `standard_52_deck`. */
  function Standard52Deck(): seq<PlayingCard>
  {
    DeckFrom(0)
  }

  lemma {:induction false} DeckFromAt(k: nat)
    requires k <= 4
    ensures |DeckFrom(k)| == 13 * (4 - k)
    ensures forall i :: 0 <= i < |DeckFrom(k)| ==>
      DeckFrom(k)[i] == PlayingCard(ALL_SUITS[k + i / 13], ALL_RANKS[i % 13])
    decreases 4 - k
  {
    if k < 4 {
      DeckFromAt(k + 1);
      var d := DeckFrom(k);
      forall i | 0 <= i < |d|
        ensures d[i] == PlayingCard(ALL_SUITS[k + i / 13], ALL_RANKS[i % 13])
      {
        DivModThirteen(i);
        if i >= 13 {
          assert d[i] == DeckFrom(k + 1)[i - 13];
        }
      }
    }
  }

  /** Dividing by a suit's 13 ranks: an index in the first suit is its own rank, and one
      further on is one suit and the same rank past its index less 13. */
  lemma DivModThirteen(i: nat)
    ensures i < 13 ==> i / 13 == 0 && i % 13 == i
    ensures i >= 13 ==> (i - 13) / 13 == i / 13 - 1 && (i - 13) % 13 == i % 13
  {
  }

  /** The deck is suit-major in `Suit::iter` order, ranks in `Rank::iter` order within a
      suit: 52 cards with card `13 * s + r` of suit `s` and rank `r`. */
  lemma DeckLayout()
    ensures |Standard52Deck()| == 52
    ensures forall s, r :: 0 <= s < 4 && 0 <= r < 13 ==>
      Standard52Deck()[13 * s + r] == PlayingCard(ALL_SUITS[s], ALL_RANKS[r])
  {
    DeckFromAt(0);
    forall s, r | 0 <= s < 4 && 0 <= r < 13
      ensures Standard52Deck()[13 * s + r] == PlayingCard(ALL_SUITS[s], ALL_RANKS[r])
    {
      assert (13 * s + r) / 13 == s && (13 * s + r) % 13 == r;
    }
  }

  /** Every card of the 52 appears in the deck. */
  lemma DeckHasEveryCard(c: PlayingCard)
    ensures c in Standard52Deck()
  {
    DeckLayout();
    IterationOrders();
    assert Standard52Deck()[13 * SuitOrder(c.suit) + RankOrder(c.rank)] == c;
  }

  /** No card appears in the deck twice. */
  lemma DeckHasNoDuplicates()
    ensures forall i, j :: 0 <= i < j < |Standard52Deck()| ==> Standard52Deck()[i] != Standard52Deck()[j]
  {
    var d := Standard52Deck();
    DeckFromAt(0);
    IterationOrders();
    forall i, j | 0 <= i < j < |d| ensures d[i] != d[j] {
      assert SuitOrder(d[i].suit) == i / 13 && RankOrder(d[i].rank) == i % 13;
      assert SuitOrder(d[j].suit) == j / 13 && RankOrder(d[j].rank) == j % 13;
      assert i == 13 * (i / 13) + i % 13 && j == 13 * (j / 13) + j % 13;
    }
  }

  // ---------------------------------------------------------------- text helpers

  /** `format!("{:>n}", s)`: right-aligned in `n` columns, or unchanged if wider. */
  function PadLeft(s: string, n: nat): (p: string)
    ensures |s| >= n ==> p == s
    ensures |s| < n ==> |p| == n && p[n - |s|..] == s && p[..n - |s|] == Spaces(n - |s|)
  {
    if |s| >= n then s else Spaces(n - |s|) + s
  }

  /** `format!("{:<n}", s)`: left-aligned in `n` columns, or unchanged if wider. */
  function PadRight(s: string, n: nat): (p: string)
    ensures |s| >= n ==> p == s
    ensures |s| < n ==> |p| == n && p[..|s|] == s && p[|s|..] == Spaces(n - |s|)
  {
    if |s| >= n then s else s + Spaces(n - |s|)
  }

  /** `str::replace`: every non-overlapping occurrence of `pat`, scanning left to right,
      replaced by `rep`. */
  function Replace(s: string, pat: string, rep: string): string
    requires |pat| > 0
    decreases |s|
  {
    if |s| < |pat| then s
    else if s[..|pat|] == pat then rep + Replace(s[|pat|..], pat, rep)
    else [s[0]] + Replace(s[1..], pat, rep)
  }

  /** A replacement as long as the pattern keeps the length of the string. */
  lemma {:induction false} ReplaceKeepsLength(s: string, pat: string, rep: string)
    requires |pat| > 0 && |rep| == |pat|
    ensures |Replace(s, pat, rep)| == |s|
    decreases |s|
  {
    if |s| < |pat| {
    } else if s[..|pat|] == pat {
      ReplaceKeepsLength(s[|pat|..], pat, rep);
    } else {
      ReplaceKeepsLength(s[1..], pat, rep);
    }
  }

  /** A string with no occurrence of the pattern's first character is left alone. */
  lemma {:induction false} ReplaceAbsent(s: string, pat: string, rep: string)
    requires |pat| > 0 && forall i :: 0 <= i < |s| ==> s[i] != pat[0]
    ensures Replace(s, pat, rep) == s
    decreases |s|
  {
    if |s| >= |pat| {
      assert s[..|pat|][0] != pat[0];
      ReplaceAbsent(s[1..], pat, rep);
      assert [s[0]] + s[1..] == s;
    }
  }

  /** The styled text every card draw call carries: the suit colour on the card background,
      bold (`with_fg`, `with_bg`, `with_bold`). */
  function CardText(card: PlayingCard, text: string): (t: RichText)
    ensures t.text == text && t.fg == SuitColor(card.suit) && t.bg == DEFAULT_CARD_BG_COLOR && t.bold
  {
    SetBold(SetBg(SetFg(NewRichText(text), SuitColor(card.suit)), DEFAULT_CARD_BG_COLOR), true)
  }

  /** `draw_calls_playing_card_small`: at (x, y), the suit glyph followed by the rank
      right-aligned in two columns, so always three characters. */
  function DrawCallsPlayingCardSmall(x: nat, y: nat, card: PlayingCard): (dc: DrawCall)
    ensures dc.x == x && dc.y == y && |dc.text.text| == 3
    ensures dc.text.text[..1] == SuitRepr(card.suit)
    ensures dc.text.text[1..] == (if card.rank == Num10 then "10" else [' '] + RankRepr(card.rank))
    ensures dc.text == CardText(card, dc.text.text)
  {
    DrawCall(x, y, CardText(card, SuitRepr(card.suit) + PadLeft(RankRepr(card.rank), 2)))
  }

  // ---------------------------------------------------------------- the big card

  /** The three-row pattern for a rank: corners `<<` and `>>` for the rank and `S` for suit
      glyphs; the ace has one glyph in the middle, the two none. */
  function Pattern(r: Rank): (p: seq<string>)
    ensures |p| == 3 && forall i :: 0 <= i < 3 ==> |p[i]| == 3
  {
    match r
    case Ace => ["<< ", " S ", " >>"]
    case Num2 => ["<<S", "   ", "S>>"]
    case _ => ["<<S", " S ", "S>>"]
  }

  /** Row `i` of the big card with the rank and suit substituted: `<<` becomes the rank
      left-aligned in two columns, `>>` the rank right-aligned, `S` the suit glyph. */
  function BigRowText(card: PlayingCard, i: nat): (t: string)
    requires i < 3
    ensures |t| == 3
  {
    var rank := RankRepr(card.rank);
    var row := Pattern(card.rank)[i];
    var left := PadRight(rank, 2);
    var right := PadLeft(rank, 2);
    ReplaceKeepsLength(row, "<<", left);
    var r1 := Replace(row, "<<", left);
    ReplaceKeepsLength(r1, ">>", right);
    var r2 := Replace(r1, ">>", right);
    ReplaceKeepsLength(r2, "S", SuitRepr(card.suit));
    Replace(r2, "S", SuitRepr(card.suit))
  }

  /** The middle row, which holds no rank text, is the middle pattern row with `S` as the
      glyph. */
  lemma MiddleRowIsGlyphOnly(card: PlayingCard)
    ensures card.rank != Num2 ==> BigRowText(card, 1) == [' '] + SuitRepr(card.suit) + [' ']
    ensures card.rank == Num2 ==> BigRowText(card, 1) == "   "
  {
    var row := Pattern(card.rank)[1];
    ReplaceAbsent(row, "<<", PadRight(RankRepr(card.rank), 2));
    ReplaceAbsent(row, ">>", PadLeft(RankRepr(card.rank), 2));
    if card.rank == Num2 {
      ReplaceAbsent(row, "S", SuitRepr(card.suit));
    } else {
      assert row == " S ";
      GlyphRowReplaced(SuitRepr(card.suit));
    }
  }

  /** The pattern row " S " with the glyph `g` substituted. */
  lemma GlyphRowReplaced(g: string)
    ensures Replace(" S ", "S", g) == [' '] + g + [' ']
  {
    var row := " S ";
    assert Replace(row, "S", g) == [' '] + Replace(row[1..], "S", g);
    assert row[1..] == "S ";
    assert Replace(row[1..], "S", g) == g + Replace(" ", "S", g);
    assert Replace(" ", "S", g) == [' '] + Replace("", "S", g);
  }

  /** The draw call for row `i` of a big card anchored at (x, y), if it is drawn at all: rows
      above the top edge are skipped; left of the left edge the first -x characters are cut
      and the row moves to column 0, or is skipped when nothing would remain. */
  function BigRowCall(x: int, y: int, card: PlayingCard, i: nat): (r: Option<DrawCall>)
    requires i < 3
    ensures r.Some? <==> y + i >= 0 && x > -3
    ensures r.Some? ==>
      r.value.y == y + i && r.value.x == (if x < 0 then 0 else x) &&
      r.value.text == CardText(card, if x < 0 then BigRowText(card, i)[-x..] else BigRowText(card, i)) &&
      |r.value.text.text| == (if x < 0 then 3 + x else 3)
  {
    var lineX := if x < 0 then 0 else x;
    var lineY := y + i;
    if lineY < 0 then None
    else
      var text := BigRowText(card, i);
      if x < 0 && -x >= |text| then None
      else Some(DrawCall(lineX, lineY, CardText(card, if x < 0 then text[-x..] else text)))
  }

  /** The calls of the first `n` rows. */
  function BigCardCalls(x: int, y: int, card: PlayingCard, n: nat): seq<DrawCall>
    requires n <= 3
  {
    if n == 0 then []
    else BigCardCalls(x, y, card, n - 1) + (match BigRowCall(x, y, card, n - 1) case None => [] case Some(dc) => [dc])
  }

  /** The big card's calls: at most one per row, for exactly the rows that are drawn, in
      ascending row order. */
  lemma BigCardCallsShape(x: int, y: int, card: PlayingCard, n: nat)
    requires n <= 3
    ensures |BigCardCalls(x, y, card, n)| <= n
    ensures forall dc :: dc in BigCardCalls(x, y, card, n) <==>
      exists i :: 0 <= i < n && BigRowCall(x, y, card, i) == Some(dc)
    ensures forall a, b :: 0 <= a < b < |BigCardCalls(x, y, card, n)| ==>
      BigCardCalls(x, y, card, n)[a].y < BigCardCalls(x, y, card, n)[b].y
    ensures forall dc :: dc in BigCardCalls(x, y, card, n) ==> y <= dc.y < y + n
  {
    BigCardCallsMembers(x, y, card, n);
    BigCardCallsOrdered(x, y, card, n);
  }

  /** The calls of the first `n` rows are exactly the drawn rows among them. */
  lemma {:induction false} BigCardCallsMembers(x: int, y: int, card: PlayingCard, n: nat)
    requires n <= 3
    ensures forall dc :: dc in BigCardCalls(x, y, card, n) <==>
      exists i :: 0 <= i < n && BigRowCall(x, y, card, i) == Some(dc)
  {
    if n > 0 {
      BigCardCallsMembers(x, y, card, n - 1);
      var prev := BigCardCalls(x, y, card, n - 1);
      var last := BigRowCall(x, y, card, n - 1);
      var all := prev + (if last.Some? then [last.value] else []);
      assert BigCardCalls(x, y, card, n) == all;
      forall dc ensures dc in all <==> exists i :: 0 <= i < n && BigRowCall(x, y, card, i) == Some(dc) {
        if dc in all && dc !in prev {
          assert BigRowCall(x, y, card, n - 1) == Some(dc);
        }
        if exists i :: 0 <= i < n && BigRowCall(x, y, card, i) == Some(dc) {
          var i :| 0 <= i < n && BigRowCall(x, y, card, i) == Some(dc);
          if i == n - 1 {
            assert all[|all| - 1] == dc;
          }
        }
      }
    }
  }

  /** The calls of the first `n` rows number at most `n` and lie on rows `y .. y + n - 1`, top
      to bottom. */
  lemma {:induction false} BigCardCallsOrdered(x: int, y: int, card: PlayingCard, n: nat)
    requires n <= 3
    ensures |BigCardCalls(x, y, card, n)| <= n
    ensures forall a, b :: 0 <= a < b < |BigCardCalls(x, y, card, n)| ==>
      BigCardCalls(x, y, card, n)[a].y < BigCardCalls(x, y, card, n)[b].y
    ensures forall dc :: dc in BigCardCalls(x, y, card, n) ==> y <= dc.y < y + n
  {
    if n > 0 {
      BigCardCallsOrdered(x, y, card, n - 1);
      var prev := BigCardCalls(x, y, card, n - 1);
      var last := BigRowCall(x, y, card, n - 1);
      var all := prev + (if last.Some? then [last.value] else []);
      assert BigCardCalls(x, y, card, n) == all;
      forall a, b | 0 <= a < b < |all| ensures all[a].y < all[b].y {
        if b >= |prev| {
          assert all[a] in prev;
        }
      }
    }
  }

  /** `draw_calls_playing_card_big`: one call per drawn row, top to bottom. The row
      arithmetic is `i16`: `y + 2` and `-x` must not overflow. */
  method DrawCallsPlayingCardBig(x: int, y: int, card: PlayingCard) returns (calls: seq<DrawCall>)
    requires -32767 <= x <= 32767 && -32768 <= y <= 32765
    ensures calls == BigCardCalls(x, y, card, 3)
  {
    calls := [];
    for rowIndex := 0 to 3
      invariant calls == BigCardCalls(x, y, card, rowIndex)
    {
      var call := BigRow(x, y, card, rowIndex);
      if call.Some? {
        calls := calls + [call.value];
      }
    }
  }

  /** One pass of the loop of `draw_calls_playing_card_big`: nothing for a row above the top
      edge (the first `continue`) or one cut away entirely (the second), else the row's call. */
  method BigRow(x: int, y: int, card: PlayingCard, rowIndex: nat) returns (call: Option<DrawCall>)
    requires rowIndex < 3
    ensures call == BigRowCall(x, y, card, rowIndex)
  {
    var lineX := if x < 0 then 0 else x;
    var lineY := y + rowIndex;
    if lineY < 0 {
      return None;
    }
    var textRow := SubstituteRow(card, rowIndex);
    if x < 0 {
      var charsToTrim := -x;
      if charsToTrim >= |textRow| {
        return None;
      }
      textRow := textRow[charsToTrim..];
    }
    var richText := SetBold(SetBg(SetFg(NewRichText(textRow), SuitColor(card.suit)), DEFAULT_CARD_BG_COLOR), true);
    return Some(DrawCall(lineX, lineY, richText));
  }

  /** The substitutions of `draw_calls_playing_card_big` on pattern row `i`. */
  method SubstituteRow(card: PlayingCard, i: nat) returns (textRow: string)
    requires i < 3
    ensures textRow == BigRowText(card, i)
  {
    var rank := RankRepr(card.rank);
    textRow := Pattern(card.rank)[i];
    textRow := Replace(textRow, "<<", PadRight(rank, 2));
    textRow := Replace(textRow, ">>", PadLeft(rank, 2));
    textRow := Replace(textRow, "S", SuitRepr(card.suit));
  }
}
