/** Model of src/card_slot.rs: a row of card slots laid out from an origin with a fixed
    horizontal spacing, every slot empty. */
module CardSlot {
  import opened Wrappers
  import opened Basics
  import opened PlayingCard

  const U16_MAX: int := 0xFFFF
  type U16 = x: int | 0 <= x <= 0xFFFF

  datatype CardSlot = CardSlot(x: U16, y: U16, card: Option<PlayingCard>)

  /** The `u16` arithmetic of `build_card_slots` does not overflow: `index as u16` keeps the
      low 16 bits of the index, so the largest product is that of `min(count - 1, 65535)`. */
  predicate LayoutFits(originX: U16, xSpacing: U16, count: nat)
  {
    count == 0 || originX + Min(count - 1, U16_MAX) * xSpacing <= U16_MAX
  }

  lemma ScaleLe(a: nat, b: nat, c: nat)
    requires a <= b
    ensures a * c <= b * c
  {
    assert b * c == a * c + (b - a) * c;
  }

  /** Slot `index` of the layout. */
  function SlotAt(originX: U16, originY: U16, xSpacing: U16, count: nat, index: nat): (s: CardSlot)
    requires LayoutFits(originX, xSpacing, count) && index < count
    ensures s.y == originY && s.card == None
    ensures index <= U16_MAX ==> s.x == originX + index * xSpacing
  {
    var column := index % 0x1_0000;
    var widest := Min(count - 1, U16_MAX);
    assert column <= widest;
    ScaleLe(column, widest, xSpacing);
    CardSlot(originX + column * xSpacing, originY, None)
  }

  /** The first `n` slots of `build_card_slots`, in index order. */
  function SlotsUpTo(originX: U16, originY: U16, xSpacing: U16, count: nat, n: nat): (r: seq<CardSlot>)
    requires LayoutFits(originX, xSpacing, count) && n <= count
    ensures |r| == n
    ensures forall i :: 0 <= i < n ==> r[i] == SlotAt(originX, originY, xSpacing, count, i)
  {
    if n == 0 then [] else SlotsUpTo(originX, originY, xSpacing, count, n - 1) + [SlotAt(originX, originY, xSpacing, count, n - 1)]
  }

  /** More than 65536 slots at spacing 1 from column 0 fit the `u16` arithmetic, but the
      cast `index as u16` wraps: slot 65536 lands on slot 0. */
  lemma WrappedSlotsCollide(originY: U16)
    ensures BuildCardSlots(0, originY, 1, U16_MAX + 2)[U16_MAX + 1].x == BuildCardSlots(0, originY, 1, U16_MAX + 2)[0].x
  {
    var r := BuildCardSlots(0, originY, 1, U16_MAX + 2);
    assert r[U16_MAX + 1] == SlotAt(0, originY, 1, U16_MAX + 2, U16_MAX + 1);
  }

  /** `build_card_slots`: `count` empty slots on row `originY`, slot `i` at column
      `originX + i * xSpacing`. */
  function BuildCardSlots(originX: U16, originY: U16, xSpacing: U16, count: nat): (r: seq<CardSlot>)
    requires LayoutFits(originX, xSpacing, count)
    ensures |r| == count
    ensures forall i :: 0 <= i < count ==> r[i].y == originY && r[i].card == None
    ensures forall i :: 0 <= i < count && i <= U16_MAX ==> r[i].x == originX + i * xSpacing
  {
    SlotsUpTo(originX, originY, xSpacing, count, count)
  }

  /** With a positive spacing and no more slots than `u16` indices, the slots sit left to
      right, each `xSpacing` after the one before, so no two share a position. */
  lemma SlotsAreEvenlySpaced(originX: U16, originY: U16, xSpacing: U16, count: nat)
    requires LayoutFits(originX, xSpacing, count) && 0 < xSpacing && count <= U16_MAX + 1
    ensures var r := BuildCardSlots(originX, originY, xSpacing, count);
      (forall i :: 0 <= i < count - 1 ==> r[i + 1].x == r[i].x + xSpacing) &&
      (forall i, j :: 0 <= i < j < count ==> r[i].x < r[j].x)
  {
    var r := BuildCardSlots(originX, originY, xSpacing, count);
    forall i, j | 0 <= i < j < count ensures r[i].x < r[j].x {
      assert i * xSpacing < j * xSpacing;
    }
    forall i | 0 <= i < count - 1 ensures r[i + 1].x == r[i].x + xSpacing {
      assert (i + 1) * xSpacing == i * xSpacing + xSpacing;
    }
  }
}
