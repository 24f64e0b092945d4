/** Model of the discrete helpers of src/slots.rs: the wrapped index of the card a reel shows
    at a row offset, the columns whose centre card matches a rank, the all-stopped test and
    the table lookup of the spin cost. Floats (`f32`) are reals; the spin animation itself is
    not part of this model. */
module Slots {
  import opened Wrappers
  import opened PlayingCard

  const I16_MIN: int := -0x8000
  const I16_MAX: int := 0x7FFF
  type I16 = x: int | -0x8000 <= x <= 0x7FFF
  type I32 = x: int | -0x8000_0000 <= x <= 0x7FFF_FFFF

  /** `isize::MAX`: no `Vec` is longer. */
  const ISIZE_MAX: int := 0x7FFF_FFFF_FFFF_FFFF
  /** `usize` is 64 bits wide. */
  const USIZE_MODULUS: int := 0x1_0000_0000_0000_0000

  datatype SlotsState = Idle | Spinning | PostSpin

  /** One reel: its position (in cards), its cards and its spin timing. */
  datatype Column = Column(cursor: real, cards: seq<PlayingCard>, spinDuration: real,
                           spinTimeRemaining: real, spinSpeed: real)

  datatype SlotMachine = SlotMachine(state: SlotsState, spinCount: I32, columns: seq<Column>)

  // ---------------------------------------------------------------- casts

  /** `f as i16`: rounds toward zero and saturates at the bounds of `i16`. */
  function TruncToI16(f: real): (r: I16)
    ensures 0.0 <= f ==> 0 <= r && r as real <= f && (f < I16_MAX as real ==> f < r as real + 1.0)
    ensures f < 0.0 ==> r <= 0 && f <= r as real && (I16_MIN as real < f ==> (r as real) - 1.0 < f)
  {
    if f >= 0.0 then (if f >= I16_MAX as real then I16_MAX else f.Floor)
    else (if f <= I16_MIN as real then I16_MIN else -((-f).Floor))
  }

  /** `n as i16` for a length: keeps the low 16 bits, read as two's complement. */
  function WrapI16(n: nat): (r: I16)
    ensures n <= I16_MAX ==> r == n
    ensures r == 0 ==> n % 0x1_0000 == 0
    ensures r + n >= 0
  {
    var low := n % 0x1_0000;
    if low <= I16_MAX then low else low - 0x1_0000
  }

  // ---------------------------------------------------------------- reel index

  /** What `get_column_card_index` needs in order not to panic: the `i16` sum does not overflow,
      the length read as `i16` is not zero, and `rem_euclid` is not asked for `MIN` by `-1`. */
  predicate IndexDefined(rowOffset: I16, column: Column)
  {
    var index := TruncToI16(column.cursor) + rowOffset;
    var cardsLen := WrapI16(|column.cards|);
    I16_MIN <= index <= I16_MAX && cardsLen != 0 && !(index == I16_MIN && cardsLen == -1)
  }

  /** `get_column_card_index`: the reel position plus the row offset, wrapped into the reel
      with `rem_euclid`. Dafny's `%` is Euclidean, as `rem_euclid` is, for either sign of the
      divisor. The result is always an index of the reel; for a reel shorter than 32768 cards
      the length survives the cast, so the result is the position modulo the reel length. */
  function GetColumnCardIndex(rowOffset: I16, column: Column): (r: nat)
    requires IndexDefined(rowOffset, column)
    ensures r < |column.cards|
    ensures |column.cards| <= I16_MAX ==> r == (TruncToI16(column.cursor) + rowOffset) % |column.cards|
  {
    var cardsLen := WrapI16(|column.cards|);
    var index := TruncToI16(column.cursor) + rowOffset;
    index % cardsLen
  }

  /** A position already inside the reel is its own index, and one a reel length above the
      top of the reel wraps to the bottom. */
  lemma CardIndexInsideReel(rowOffset: I16, column: Column)
    requires 0 < |column.cards| <= I16_MAX && IndexDefined(rowOffset, column)
    ensures var p := TruncToI16(column.cursor) + rowOffset;
      (0 <= p < |column.cards| ==> GetColumnCardIndex(rowOffset, column) == p) &&
      (-|column.cards| <= p < 0 ==> GetColumnCardIndex(rowOffset, column) == p + |column.cards|)
  {
    var p, n := TruncToI16(column.cursor) + rowOffset, |column.cards|;
    if 0 <= p < n {
      ModUnique(p, n, 0, p);
    } else if -n <= p < 0 {
      ModUnique(p, n, -1, p + n);
    }
  }

  /** Moving a whole reel length further down the reel shows the same card. */
  lemma CardIndexIsPeriodic(rowOffset: I16, column: Column)
    requires 0 < |column.cards| <= I16_MAX && rowOffset + |column.cards| <= I16_MAX
    requires IndexDefined(rowOffset, column) && IndexDefined(rowOffset + |column.cards|, column)
    ensures GetColumnCardIndex(rowOffset + |column.cards|, column) == GetColumnCardIndex(rowOffset, column)
  {
    var p, n := TruncToI16(column.cursor) + rowOffset, |column.cards|;
    assert p == (p / n) * n + p % n;
    ModUnique(p + n, n, p / n + 1, p % n);
  }

  /** The Euclidean remainder is the only one in range. */
  lemma ModUnique(a: int, n: int, q: int, r: int)
    requires n > 0 && 0 <= r < n && a == q * n + r
    ensures a % n == r
  {
    var q', r' := a / n, a % n;
    assert a == q' * n + r';
    assert (q - q') * n == r' - r;
    if q - q' >= 1 {
      assert false;
    } else if q' - q >= 1 {
      assert false;
    }
  }

  // ---------------------------------------------------------------- matching columns

  predicate CentersDefined(columns: seq<Column>)
  {
    forall i :: 0 <= i < |columns| ==> IndexDefined(0, columns[i])
  }

  /** The card a reel shows on its centre row. */
  function CenterCard(column: Column): PlayingCard
    requires IndexDefined(0, column)
  {
    column.cards[GetColumnCardIndex(0, column)]
  }

  /** The matching filter over the first `n` columns. */
  function MatchingFrom(target: PlayingCard, columns: seq<Column>, n: nat): (r: seq<nat>)
    requires n <= |columns| && CentersDefined(columns)
    ensures forall k :: 0 <= k < |r| ==> r[k] < n
    ensures forall a, b :: 0 <= a < b < |r| ==> r[a] < r[b]
    ensures forall i :: 0 <= i < n ==> (i in r <==> CenterCard(columns[i]).rank == target.rank)
  {
    if n == 0 then []
    else MatchingFrom(target, columns, n - 1) + (if CenterCard(columns[n - 1]).rank == target.rank then [n - 1] else [])
  }

  /** `slots_center_row_indexes_matching_card`: the columns, in ascending order, whose centre
      card has the rank of `target`. */
  function SlotsCenterRowIndexesMatchingCard(target: PlayingCard, columns: seq<Column>): (r: seq<nat>)
    requires CentersDefined(columns)
    ensures forall k :: 0 <= k < |r| ==> r[k] < |columns|
    ensures forall a, b :: 0 <= a < b < |r| ==> r[a] < r[b]
    ensures forall i :: 0 <= i < |columns| ==> (i in r <==> CenterCard(columns[i]).rank == target.rank)
  {
    MatchingFrom(target, columns, |columns|)
  }

  /** The match compares ranks only: targets of the same rank select the same columns. */
  lemma MatchingIgnoresSuit(t: PlayingCard, u: PlayingCard, columns: seq<Column>)
    requires CentersDefined(columns) && t.rank == u.rank
    ensures SlotsCenterRowIndexesMatchingCard(t, columns) == SlotsCenterRowIndexesMatchingCard(u, columns)
  {
    MatchingFromIgnoresSuit(t, u, columns, |columns|);
  }

  lemma {:induction false} MatchingFromIgnoresSuit(t: PlayingCard, u: PlayingCard, columns: seq<Column>, n: nat)
    requires n <= |columns| && CentersDefined(columns) && t.rank == u.rank
    ensures MatchingFrom(t, columns, n) == MatchingFrom(u, columns, n)
  {
    if n > 0 {
      MatchingFromIgnoresSuit(t, u, columns, n - 1);
    }
  }

  // ---------------------------------------------------------------- all stopped

  /** `slots_are_spinning` over a list of reels (`Iterator::all`): despite its name, true when
      every reel's speed is zero, which is how its caller moves the machine to `PostSpin`. */
  function AllStopped(columns: seq<Column>): (r: bool)
    ensures r <==> forall i :: 0 <= i < |columns| ==> columns[i].spinSpeed == 0.0
  {
    if |columns| == 0 then true
    else columns[0].spinSpeed == 0.0 && AllStopped(columns[1..])
  }

  function SlotsAreSpinning(slots: SlotMachine): (r: bool)
    ensures r <==> forall i :: 0 <= i < |slots.columns| ==> slots.columns[i].spinSpeed == 0.0
    ensures |slots.columns| == 0 ==> r
  {
    AllStopped(slots.columns)
  }

  // ---------------------------------------------------------------- spin cost

  /** `spin_count as usize`: a negative count wraps to a huge index. */
  function UsizeOf(i: I32): (u: nat)
    ensures 0 <= i ==> u == i
    ensures i < 0 ==> u >= USIZE_MODULUS - 0x8000_0000
  {
    if i >= 0 then i else i + USIZE_MODULUS
  }

  /** The table branch of `spin_cost` (`lut.get(spin_count as usize)`): the entry for the spin
      count when the table has one, `None` where the source falls back to its float formula. */
  function SpinCostLookup(spinCount: I32, lut: seq<I32>): (r: Option<I32>)
    requires |lut| <= ISIZE_MAX
    ensures r.Some? <==> 0 <= spinCount < |lut|
    ensures r.Some? ==> r.value == lut[spinCount]
  {
    var costIndex := UsizeOf(spinCount);
    if costIndex < |lut| then Some(lut[costIndex]) else None
  }
}
