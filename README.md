# term-slots in Dafny

This project models the discrete core of term-slots, a terminal slot-machine and poker card game. The model covers:

- the cell-grid renderer (`src/renderer.rs`), with its row-major screen buffers, the overwrite compositor that folds draw calls into a buffer, the background fill, the buffer swap and the row-major frame diff;
- the newer engine data model (`src/engine/`):
  - the packed RGBA colour;
  - the rich-text builder and its attribute bit-set;
  - the double-buffered screen whose first frame is a full redraw;
  - the draw queue fed by `draw_text`, `draw_rect` and `fill_screen`;
- both frame pacers (`src/engine/fps_limiter.rs` and `src/fps_limiter.rs`), as state machines over a stored deadline driven by an abstract monotone clock;
- the poker-hand evaluator (`src/poker_hand.rs`), both as a specification (grouping, flush, n-of-a-kind and straight facts, then the priority ladder) and as the imperative counting loops of the source proved equal to it;
- the card helpers (`src/playing_card.rs`): the deck, suit colours, and the small and big card draw calls with their clipping;
- the reel helpers of `src/slots.rs`, the slot layout of `src/card_slot.rs` and `iter_some` from `src/utils.rs`.

Each source file is one module. The pure code (colour packing, builders, card text, the poker ranking tables, reel index, slot layout) is written as functions with named results and lemmas. The code that changes state is written as classes and methods with `modifies` clauses and loop invariants, proved against specification functions:

- `Renderer.ScreenBuffer` and `Renderer.Screen` hold an `array` of cells;
- `EngineDraw.Engine` holds the draw queue;
- `EngineFpsLimiter.FpsLimiter` and `FpsLimiter.FPSLimiter` hold the pacer deadlines;
- `Poker.Table` holds the slots of the card table;
- `Clock.Clock` is the clock.

Time is measured in integer nanoseconds. `Instant::now()` is a `Clock` whose future readings are fixed and monotone. `thread::sleep` only records the requested duration.

## Model

| member | source | states |
|---|---|---|
| Utils.SomePositions | src/utils.rs:21-25 | the set of positions of a slot list that hold a value, as a set |
| Utils.IterSomeFrom | src/utils.rs:21-25 | every yielded pair is a position holding `Some` together with the item inside it; positions strictly increase |
| Utils.IterSome | src/utils.rs:21-25 | `iter_some` yields only (position, item) pairs of filled slots, in strictly increasing position order |
| Utils.IterSomeFromComplete | src/utils.rs:22-24 | every filled position at or after the start is yielded |
| Utils.IterSomeComplete | src/utils.rs:22-24 | every filled position is yielded, with its own item |
| Utils.IterSomeFromCount | src/utils.rs:22-24 | the number of yielded pairs from a start equals the number of filled positions from there |
| Utils.IterSomeCount | src/utils.rs:22-24 | each filled position is yielded exactly once: the count equals the number of `Some` entries |
| Utils.Somes | src/utils.rs:21-25 | the flattened items (`iter().flatten()`) are the items of `iter_some`, in the same order |
| Utils.SomesEmpty | src/poker_hand.rs:111-113 | the flattened list is empty exactly when every slot is `None` |
| EngineColor.New | src/engine/color.rs:11-13 | r sits in bits 24-31, g in 16-23, b in 8-15 and a in 0-7: each extractor reads back its own channel |
| EngineColor.NewOfChannels | src/engine/color.rs:11-13 | repacking the four extracted bytes gives back the packed value, so every packed value is some `new` |
| EngineColor.NewInjective | src/engine/color.rs:11-13 | distinct byte quadruples pack to distinct values |
| EngineColor.ConstantsAgreeWithNew | src/engine/color.rs:5-9 | WHITE, BLACK, RED, GREEN and BLUE are `new` of their channel values with alpha 255 |
| EngineColor.WhiteIsNotBlack | src/engine/color.rs:5-6 | the two default cell colours are distinct, both opaque, and differ in red |
| EngineRichText.Flags | src/engine/rich_text.rs:5-13 | reads an attribute byte as the set of flags whose bit it contains |
| EngineRichText.FlagsAreDistinctSingleBits | src/engine/rich_text.rs:8-11 | each flag is one nonzero bit, and different flags share no bit |
| EngineRichText.ContainsUnion | src/engine/rich_text.rs:5-13 | a flag is in `a \| b` exactly when it is in `a` or in `b` |
| EngineRichText.Union | src/engine/rich_text.rs:5-13 | the union of two attribute values has the union of their flag sets and stays within the four known bits |
| EngineRichText.UnionFlags | src/engine/rich_text.rs:5-13 | the flag set of `a \| b` is the union of the flag sets of `a` and `b` |
| EngineRichText.KnownEqualIffSameFlags | src/engine/rich_text.rs:5-13 | two attribute values over the known bits are equal exactly when they hold the same flags |
| EngineRichText.EmptyHasNoFlags | src/engine/rich_text.rs:5-13 | the empty attribute value holds no flag |
| EngineRichText.New | src/engine/rich_text.rs:24-31 | keeps the text and sets fg WHITE, bg CLEAR and no attributes |
| EngineRichText.Fg | src/engine/rich_text.rs:33-36 | changes the foreground only |
| EngineRichText.Bg | src/engine/rich_text.rs:38-41 | changes the background only |
| EngineRichText.WithAttributes | src/engine/rich_text.rs:43-46 | changes the attributes only |
| EngineRichText.From | src/engine/rich_text.rs:49-59 | both `From` conversions give the same value as `RichText::new` |
| EngineRichText.BuildersCommute | src/engine/rich_text.rs:33-46 | the three builders touch disjoint fields, so any two of them commute |
| EngineScreen.NewScreen | src/engine/screen.rs:21-46 | both buffers have cols*rows cells (a `u16` product); current cells are ' ' WHITE on BLACK, last cells ' ' BLACK on BLACK, with no attributes |
| EngineScreen.FirstFrameRedrawsEveryCell | src/engine/screen.rs:27-44 | at every index the two buffers differ, in the foreground only, so the first frame redraws every cell |
| EngineDraw.U16AsI16 | src/engine/draw.rs:35-39 | `rows as i16` keeps the value below 32768 and wraps it negative from there |
| Basics.Spaces | src/engine/draw.rs:19 | `" ".repeat(n)`: a string of exactly n spaces, the padding of `draw_rect` rows and of the card text alignment |
| EngineDraw.RectRowText | src/engine/draw.rs:19-20 | a rectangle row is `width` spaces with fg CLEAR, the given bg and no attributes |
| EngineDraw.RectRows | src/engine/draw.rs:21-24 | the row loop's calls from row `from` on: one per remaining row, each the row text at (x, y + row); `RectRowsShape` states this |
| EngineDraw.RectRowsShape | src/engine/draw.rs:21-24 | the row loop from row `from` emits one call per remaining row, row k at (x, y + from + k) |
| EngineDraw.RectCalls | src/engine/draw.rs:18-25 | `draw_rect` emits max(height, 0) calls; row r is at (x, y + r) and carries the row text; rows ascend |
| EngineDraw.Engine.DrawText | src/engine/draw.rs:9-16 | appends exactly one call with the position and text, leaving earlier entries unchanged |
| EngineDraw.Engine.DrawRect | src/engine/draw.rs:18-25 | the queue afterwards is the old queue followed by the rectangle's row calls |
| EngineDraw.Engine.FillScreen | src/engine/draw.rs:35-39 | appends `draw_rect` at (0,0) with size cols×rows |
| EngineDraw.FillScreenCalls | src/engine/draw.rs:35-39 | filling the screen appends one call per screen row, row r at (0, r), each `cols` characters wide in the given colour |
| Clock.ReachesAfterEarlyRead | src/fps_limiter.rs:53 | a clock reading before the deadline leaves the readings that reach it untouched |
| Clock.ReachesAfterRead | src/fps_limiter.rs:53 | a clock reading uses up at most one of the readings that reach the deadline |
| Clock.ReachesWeaken | src/fps_limiter.rs:46-53 | with monotone readings, reaching the deadline earlier implies reaching it later |
| Clock.MonotoneAt | src/fps_limiter.rs:43-55 | `Instant` readings never go backwards: any two readings are in order and no earlier than the reading before them |
| Clock.SaturatingSub | src/engine/fps_limiter.rs:87-88 | `checked_duration_since(..).unwrap_or(ZERO)`: the exact difference when it exists, zero otherwise |
| Clock.SpinUntil | src/engine/fps_limiter.rs:46-48 | the busy-wait takes `spun` readings in the clock's order: every one but the last is before the deadline, the last is at or after it and is the latest reading; the readings left are those after them; no sleep; at most one reaching reading is used |
| Clock.NowToward | src/engine/fps_limiter.rs:46-48 | one reading advances the clock by exactly one reading, never backwards, and reaches the deadline at most once: a reading before the deadline leaves the reaching reading still ahead |
| Clock.Clock.Now | src/fps_limiter.rs:43 | `Instant::now()` returns the next of the clock's readings, never earlier than the previous one, which it becomes; no sleep is recorded |
| Clock.Clock.Sleep | src/fps_limiter.rs:48 | `sleep(d)` records d and leaves the readings and the latest reading as they were |
| EngineFpsLimiter.CalcTargetFrametime | src/engine/fps_limiter.rs:67-75 | the target frametime is zero exactly when the limit is 0, else the frame period |
| EngineFpsLimiter.PrevFrame | src/engine/fps_limiter.rs:79-86 | the previous frame is the deadline minus the target, or the deadline itself when that underflows |
| EngineFpsLimiter.CalcDeltaTime | src/engine/fps_limiter.rs:77-90 | the delta is the time since the previous frame, clamped at zero |
| EngineFpsLimiter.CappedDeltaCoversFrame | src/engine/fps_limiter.rs:50-53 | once the spin has reached the deadline, the capped delta is now − deadline + target, so at least one target |
| EngineFpsLimiter.SleepRemainingAsWritten | src/engine/fps_limiter.rs:40-41 | the remaining-time subtraction as written fails exactly when a fresh clock reading has passed deadline − reserve |
| EngineFpsLimiter.SleepRemainingAsWrittenCanPanic | src/engine/fps_limiter.rs:39-43 | a guard reading that lets the loop body run, followed by a second reading inside the spin window, makes the subtraction fail |
| EngineFpsLimiter.SleepRemaining | src/engine/fps_limiter.rs:39-43 | the corrected remaining time agrees with the written one wherever that one is defined and is zero otherwise; it is positive while the guard holds |
| EngineFpsLimiter.SleepsFor | src/engine/fps_limiter.rs:42 | one sleep per loop pass, each at most the poll interval |
| EngineFpsLimiter.SleepUntilSpinWindow | src/engine/fps_limiter.rs:38-43 | the passes are the clock's readings two by two, (guard, remaining-time reading), each guard short of the spin window, with one sleep each of min(poll, remaining); the loop ends on the next reading, the first guard inside the spin window, and uses no other reading |
| EngineFpsLimiter.SleepPass | src/engine/fps_limiter.rs:39-43 | one pass of the sleep loop: the remaining-time reading is the clock's next reading and the next guard the one after it, no earlier than the guard; one sleep of min(poll, time left before the spin window at the remaining-time reading) |
| EngineFpsLimiter.PassesOrdered | src/engine/fps_limiter.rs:39-43 | with monotone readings, each recorded pass has its guard no earlier than the clock before the loop, its remaining-time reading no earlier than its guard, and its guard short of the spin window |
| EngineFpsLimiter.RecordedPass | src/engine/fps_limiter.rs:39-43 | one pass keeps the loop's state: the pass records grow by the two readings it took, the sleep log by its sleep, and the clock stands at the next guard reading |
| EngineFpsLimiter.SleepAndSpin | src/engine/fps_limiter.rs:38-48 | the sleep loop's passes, then its exit guard inside the spin window, then `spun` spin readings of which only the last reaches the deadline, in the clock's order and using no other reading |
| EngineFpsLimiter.MeasureFrame | src/engine/fps_limiter.rs:50-60 | the delta is taken at the next reading (`measured`) as measured − deadline + target, the lateness test at the reading after it (`checked`); late: the next deadline is a third reading + target, else deadline + target |
| EngineFpsLimiter.CappedWait | src/engine/fps_limiter.rs:38-62 | the whole capped branch as `CappedWaitOutcome` lays it out over the clock's readings: passes, exit guard, spin, `measured`, `checked` and, if late, one more reading; exactly those readings are used |
| EngineFpsLimiter.FpsLimiter.constructor | src/engine/fps_limiter.rs:12-21 | the target is the limit's frametime and the next deadline is now + target |
| EngineFpsLimiter.FpsLimiter.LimitFps | src/engine/fps_limiter.rs:24-29 | resets the target and sets the deadline to now + target |
| EngineFpsLimiter.FpsLimiter.WaitForNextFrame | src/engine/fps_limiter.rs:31-63 | uncapped: elapsed time since the stored timestamp, clamped at 0; the timestamp becomes the next reading; no sleep. Capped: the readings in the clock's order are the sleep passes (each guard short of the spin window, one sleep of min(poll, remaining) each), the exit guard, the spin readings up to the first at the deadline, `measured` and `checked`; delta = measured − deadline + target; the next deadline is the reading after `checked` + target if `checked` is late, else deadline + target, never less than deadline + target |
| FpsLimiter.TargetFrametime | src/fps_limiter.rs:13-19 | fps <= 0 gives a zero target (uncapped); any other fps gives the positive frame period |
| FpsLimiter.SleepUntilSpinWindow | src/fps_limiter.rs:42-50 | the guard readings are the clock's readings in turn, each with now + reserve < target time and one sleep of min(poll, target − now − reserve); the loop ends on the next reading, the first with now + reserve >= target time |
| FpsLimiter.SleepPass | src/fps_limiter.rs:47-49 | one pass: a sleep of min(poll, target − now − reserve), then `now` becomes the clock's next reading, no earlier than the last |
| FpsLimiter.SleepSpinRead | src/fps_limiter.rs:42-55 | the guard readings, the exit guard, the spin readings of which only the last reaches the target time, then `end` as the reading after them, in the clock's order and using no other reading |
| FpsLimiter.GuardSleeps | src/fps_limiter.rs:47-48 | each sleep lasts at most the poll interval, never runs past the start of the spin window, and is exactly the time left when that is shorter than the poll interval |
| FpsLimiter.FPSLimiter.constructor | src/fps_limiter.rs:12-29 | sets the target from fps and next_frame = now + target |
| FpsLimiter.FPSLimiter.Wait | src/fps_limiter.rs:31-69 | uncapped: dt = now − next_frame (saturating) and next_frame = now. Capped: the readings in the clock's order are the guards (each with now + reserve < target time, one sleep each of min(poll, remaining)), the exit guard, the spin readings to the first at the target time, then `end`; dt = end − (next_frame − target); next_frame = target time + target, or end + target if end passed it; so end <= next_frame <= end + target |
| PlayingCard.SuitOrder | src/playing_card.rs:9-15 | the declaration position of a suit |
| PlayingCard.RankOrder | src/playing_card.rs:41-56 | the declaration position of a rank, which is its derived order |
| PlayingCard.SuitRepr | src/playing_card.rs:18-25 | each suit glyph is one character |
| PlayingCard.RankRepr | src/playing_card.rs:59-75 | rank text is one character, two for "10", and never contains the pattern letters 'S' or '>' |
| PlayingCard.ReprsAreInjective | src/playing_card.rs:18-75 | distinct suits, and distinct ranks, have distinct text |
| PlayingCard.SuitColor | src/playing_card.rs:27-34 | Spade and Club are SUIT_COLOR_BLACK; Heart and Diamond are SUIT_COLOR_RED |
| PlayingCard.IterationOrders | src/playing_card.rs:36-94 | the iteration orders list every suit and every rank once, in declaration order |
| PlayingCard.SuitRun | src/playing_card.rs:192-196 | the thirteen cards of one suit, in rank iteration order |
| PlayingCard.DeckFromAt | src/playing_card.rs:192-196 | the deck from suit k on is suit-major: position i holds suit k + i/13 and rank i mod 13 |
| PlayingCard.DeckLayout | src/playing_card.rs:192-196 | `standard_52_deck` has 52 cards; position 13s + r holds suit s and rank r of the iteration orders |
| PlayingCard.DeckHasEveryCard | src/playing_card.rs:192-196 | every (suit, rank) card is in the deck |
| PlayingCard.DeckHasNoDuplicates | src/playing_card.rs:192-196 | no card occurs twice in the deck |
| PlayingCard.Standard52Deck | src/playing_card.rs:192-196 | `standard_52_deck`, suit by suit; `DeckLayout`, `DeckHasEveryCard` and `DeckHasNoDuplicates` state its properties |
| PlayingCard.PadLeft | src/playing_card.rs:162 | `{:>n}`: a string shorter than n is right-aligned with spaces to width n; a longer one is unchanged |
| PlayingCard.PadRight | src/playing_card.rs:161 | `{:<n}`: a string shorter than n is left-aligned with spaces to width n; a longer one is unchanged |
| PlayingCard.Replace | src/playing_card.rs:161-163 | `str::replace`, left to right over non-overlapping occurrences; `ReplaceKeepsLength` and `ReplaceAbsent` state its properties |
| PlayingCard.ReplaceKeepsLength | src/playing_card.rs:161-163 | replacing a pattern by text of the same length keeps the length |
| PlayingCard.ReplaceAbsent | src/playing_card.rs:161-163 | replacing a pattern whose first letter does not occur changes nothing |
| PlayingCard.CardText | src/playing_card.rs:114-117 | card text is drawn in the suit colour on the card background, bold |
| PlayingCard.DrawCallsPlayingCardSmall | src/playing_card.rs:103-118 | the small card at (x, y) is the suit glyph then the rank right-aligned to width 2, in card styling |
| PlayingCard.Pattern | src/playing_card.rs:130-149 | the pattern chosen by rank has three rows of three characters |
| PlayingCard.BigRowText | src/playing_card.rs:160-163 | after the three substitutions every row is exactly 3 characters |
| PlayingCard.MiddleRowIsGlyphOnly | src/playing_card.rs:130-163 | the middle row is the suit glyph between spaces, or blank for a Two |
| PlayingCard.BigRowCall | src/playing_card.rs:151-186 | row i is emitted exactly when y + i >= 0 and fewer than 3 characters are trimmed; it is at (max(x,0), y + i) with the first −x characters dropped when x < 0 |
| PlayingCard.BigCardCalls | src/playing_card.rs:151-189 | the calls of the first n pattern rows, row by row; `BigCardCallsShape`, `BigCardCallsMembers` and `BigCardCallsOrdered` state its properties |
| PlayingCard.BigCardCallsShape | src/playing_card.rs:151-189 | at most one call per pattern row, all within rows y..y+2, in ascending row order, and exactly the rows that `BigRowCall` emits |
| PlayingCard.BigCardCallsMembers | src/playing_card.rs:151-189 | the calls of the first n rows are exactly the calls of the rows among them that are drawn |
| PlayingCard.BigCardCallsOrdered | src/playing_card.rs:151-189 | the first n rows give at most n calls, on rows y..y+n−1, top to bottom |
| PlayingCard.DrawCallsPlayingCardBig | src/playing_card.rs:121-190 | the loop builds exactly the calls of the row-by-row specification for the three pattern rows |
| PlayingCard.BigRow | src/playing_card.rs:152-186 | one pass of the rows loop: nothing for a row above the top edge or one cut away entirely, otherwise the clipped, substituted row as a bold call in the suit colour |
| PlayingCard.SubstituteRow | src/playing_card.rs:160-163 | the three substitutions turn pattern row i into its rank-and-suit text |
| Poker.HandOrder | src/poker_hand.rs:8-23 | the declaration position of a hand, which is its derived order |
| Poker.CoinValue | src/poker_hand.rs:44-60 | coin values lie in 0..170 and only HighCard is worth nothing |
| Poker.CoinValueFollowsOrder | src/poker_hand.rs:8-60 | coin value strictly increases along the derived order, so equal value means equal hand |
| Poker.SuitIndex | src/poker_hand.rs:64-71 | the suit index is the suit's declaration position |
| Poker.RankIndex | src/poker_hand.rs:73-89 | the rank index is the rank's declaration position |
| Poker.StraightValue | src/poker_hand.rs:91-107 | straight values run from 2 to 14 and are 14 minus the rank index |
| Poker.RankIndexInjective | src/poker_hand.rs:73-89 | distinct ranks have distinct indices |
| Poker.OfSuit | src/poker_hand.rs:126-135 | the cards of one suit, drawn from the input |
| Poker.OfRank | src/poker_hand.rs:127-136 | the cards of one rank, drawn from the input |
| Poker.GroupsAreComplete | src/poker_hand.rs:129-137 | every card lands in its suit group and its rank group |
| Poker.GroupsGrow | src/poker_hand.rs:129-137 | a group over a prefix is no larger than over the whole input |
| Poker.RankGroupsDisjoint | src/poker_hand.rs:129-137 | two different rank groups together are a sub-multiset of the input |
| Poker.SuitGroupIsSubMultiset | src/poker_hand.rs:129-137 | a suit group is a sub-multiset of the input |
| Poker.RankGroupIsSubMultiset | src/poker_hand.rs:129-137 | a rank group is a sub-multiset of the input |
| Poker.Take | src/poker_hand.rs:149 | `take(n)` is the prefix of the sequence of length min(n, length) |
| Poker.InsertDesc | src/poker_hand.rs:148 | inserting one card adds exactly that card |
| Poker.SortDesc | src/poker_hand.rs:148 | sorting is a permutation |
| Poker.InsertDescSorted | src/poker_hand.rs:148 | inserting into a descending sequence keeps it descending |
| Poker.SortDescSorted | src/poker_hand.rs:148 | the sort result is descending by the key |
| Poker.SortDescOfSorted | src/poker_hand.rs:148 | sorting an already descending sequence leaves it unchanged (the sort is stable) |
| Poker.FlushSuitFrom | src/poker_hand.rs:143-152 | finds the first suit index with at least 5 cards, or reports that none has |
| Poker.RankCounts | src/poker_hand.rs:125-134 | the rank counts are the sizes of the rank groups |
| Poker.LastWith | src/poker_hand.rs:166-172 | the last rank index whose count is exactly n, or none |
| Poker.FirstWith | src/poker_hand.rs:173-177 | the first rank index whose count is exactly n, or none |
| Poker.PairIndices | src/poker_hand.rs:178-181 | the ascending list of exactly the rank indices whose count is 2 |
| Poker.FirstNonzero | src/poker_hand.rs:190 | the first rank index with a nonzero count, or none |
| Poker.RankPresent | src/poker_hand.rs:314-319 | the presence table over straight values 0..14: entry v holds exactly when some card has straight value v |
| Poker.StraightHighFrom | src/poker_hand.rs:330-340 | the highest window top at or below `high` whose five values are all present, or none |
| Poker.StraightRanks | src/poker_hand.rs:341-347 | a straight is five straight values |
| Poker.FindValue | src/poker_hand.rs:349-357 | `find`: the first card with the given straight value, every card before it having another value; None exactly when no card has it |
| Poker.PickCards | src/poker_hand.rs:349-357 | at most one card per wanted value |
| Poker.PickCardsSnoc | src/poker_hand.rs:349-357 | listing one more value appends that value's found card, if there is one |
| Poker.CheckStraightSpec | src/poker_hand.rs:312-371 | the specification of `check_straight`: the highest fully present window, its values' first cards sorted by straight value; `StraightIff`, `StraightCards` and `CheckStraight` state its properties |
| Poker.FiveHighWindowNeverMatches | src/poker_hand.rs:314-340 | value 1 is never marked present, so the window topped by 5 never matches and a found straight tops at 6 or more |
| Poker.StraightIff | src/poker_hand.rs:312-371 | `check_straight` reports a straight exactly when some window topped by 6..14 is fully present |
| Poker.PickCardsOfWindow | src/poker_hand.rs:349-357 | when every wanted value is held, one input card is picked per value, with that value |
| Poker.DistinctIsSubMultiset | src/poker_hand.rs:349-357 | distinct cards all drawn from the input form a sub-multiset of it |
| Poker.WindowValues | src/poker_hand.rs:341-347 | the five values of a window, descending from its top |
| Poker.WindowHeld | src/poker_hand.rs:330-336 | every value of a matched window is held by some card |
| Poker.DescendingRun | src/poker_hand.rs:357-368 | cards with consecutive descending straight values are already sorted and distinct |
| Poker.WindowPick | src/poker_hand.rs:349-368 | the picked cards of a matched window are 5 input cards, one per value in descending order, unchanged by the final sort |
| Poker.StraightCards | src/poker_hand.rs:312-371 | a straight's cards are 5 input cards with consecutive descending straight values from a top of at least 6 |
| Poker.FactsOf | src/poker_hand.rs:123-192 | the facts the ladder reads hold one group per rank |
| Poker.Ladder | src/poker_hand.rs:196-304 | the priority ladder on the gathered facts: the first rung that holds, with its scoring cards; `LadderPicksFirstHolding`, `LadderScoringSize` and `LadderScoringDrawn` state its properties |
| Poker.MaxByRank | src/poker_hand.rs:302 | `max_by_key` on the rank: an input card of the greatest rank index, every later card having a smaller one, so on ties the last |
| Poker.Rung | src/poker_hand.rs:196-304 | every hand has a place on the priority ladder |
| Poker.LadderPicksFirstHolding | src/poker_hand.rs:196-304 | the evaluated hand holds, and no hand earlier on the ladder (FlushFive … Pair, HighCard last) holds |
| Poker.FlushFacts | src/poker_hand.rs:143-152 | a flush exists iff some suit has >= 5 cards; the first such suit is used; its flush cards are 5 input cards of that suit in descending rank order |
| Poker.FlushCardsFacts | src/poker_hand.rs:146-150 | for a suit with five or more cards, the flush cards are five input cards of that suit in descending rank order |
| Poker.FlushCardsHaveGreatestKeys | src/poker_hand.rs:146-150 | the flush cards and the suit's cards left out together are the suit's cards, and no card left out has a greater rank index than a flush card: by the derived order they are the suit's lowest cards |
| Poker.FlushCardsOf | src/poker_hand.rs:146-150 | the specification of `flush_cards` for a suit: its cards sorted by `Reverse(rank)`, the first five; `FlushCardsFacts` and `FlushCardsHaveGreatestKeys` state its properties |
| Poker.SixOfAKindCountsForNothing | src/poker_hand.rs:166-182 | a rank with 6 or more cards sets no five, four, three or pair |
| Poker.KindFacts | src/poker_hand.rs:166-182 | the chosen three is the lowest rank index with count 3; pairs are exactly the ranks with count 2 |
| Poker.FactsOfWellFormed | src/poker_hand.rs:123-192 | the gathered facts satisfy everything the ladder needs: groups drawn from the input and of the counted sizes |
| Poker.LadderScoringSize | src/poker_hand.rs:196-304 | the ladder returns as many scoring cards as its hand needs |
| Poker.LadderScoringDrawn | src/poker_hand.rs:196-304 | the scoring cards are a sub-multiset of the input |
| Poker.DisjointTakes | src/poker_hand.rs:232-286 | cards taken from two different rank groups are together a sub-multiset of the input |
| Poker.ScoringCards | src/poker_hand.rs:196-304 | 5 scoring cards for flush hands, FiveOfAKind and FullHouse; 4 for FourOfAKind and TwoPair; 3 for ThreeOfAKind; 2 for Pair; 1 for HighCard; all drawn from the input |
| Poker.HighCardIsMaximal | src/poker_hand.rs:300-304 | a HighCard result is one input card that is maximal under the rank's derived order |
| Poker.RoyalFlushAsWritten | src/poker_hand.rs:188-192 | RoyalFlush holds iff flush and straight hold and Num10 is the first rank index present, i.e. some Ten and nothing above it |
| Poker.FirstPresentIsTen | src/poker_hand.rs:188-192 | the first rank index with a nonzero count is that of Num10 exactly when some card is a Ten and no card has a lower rank index |
| Poker.HeldSnoc | src/poker_hand.rs:314-319 | adding a card adds exactly its straight value to the held values |
| Poker.MarkPresent | src/poker_hand.rs:314-319 | the marking loop fills the presence table of the specification |
| Poker.WindowSet | src/poker_hand.rs:330-336 | the inner scan with `break` decides exactly whether the five values below `high` are all present |
| Poker.PickStraight | src/poker_hand.rs:349-357 | the picking loop returns the specification's picked cards |
| Poker.CheckStraight | src/poker_hand.rs:312-371 | the whole `check_straight` equals its specification |
| Poker.GroupStep | src/poker_hand.rs:129-137 | one pass of the grouping loop keeps counts and groups in step with the processed prefix without overflowing a `u8` |
| Poker.GroupCards | src/poker_hand.rs:124-137 | the grouping loop ends with counts and groups equal to those of the whole input |
| Poker.FindFlush | src/poker_hand.rs:140-152 | the flush loop finds the specification's flush suit and cards |
| Poker.ScanRanks | src/poker_hand.rs:157-182 | the rank loop sets last five, last four, first three and the pair list as specified |
| Poker.GatherFacts | src/poker_hand.rs:123-192 | the counting half of `eval_poker_hand` gathers exactly the specified facts |
| Poker.EvalPokerHand | src/poker_hand.rs:122-305 | `eval_poker_hand` returns the ladder's result on the gathered facts |
| Poker.Evaluate | src/poker_hand.rs:122-305 | the specification of `eval_poker_hand`: the ladder on the facts of the hand; `LadderPicksFirstHolding`, `ScoringCards` and `EvalPokerHand` state its properties |
| Poker.Table.constructor | src/poker_hand.rs:110-120 | a table with the given slots and no hand yet |
| Poker.Table.UpdateCurrentPokerHand | src/poker_hand.rs:110-120 | leaves the slots alone; stores None exactly when every slot is empty, otherwise the evaluated hand of the flattened cards |
| Renderer.Clamp01 | src/renderer.rs:26 | the alpha clamp lands in [0, 1] and keeps values already there |
| Renderer.FromU8 | src/renderer.rs:21-28 | keeps the three bytes and clamps alpha |
| Renderer.NewRichText | src/renderer.rs:49-66 | keeps the text; fg opaque white, bg opaque black, not bold |
| Renderer.SetFg | src/renderer.rs:68-71 | changes the foreground only |
| Renderer.SetBg | src/renderer.rs:73-76 | changes the background only |
| Renderer.SetBold | src/renderer.rs:78-81 | changes boldness only |
| Renderer.SettersCommute | src/renderer.rs:68-81 | setters on different fields commute, and a later fg overrides an earlier one |
| Renderer.CellsDifferIffUnequal | src/renderer.rs:130 | the four-field comparison of the diff is exactly cell inequality |
| Renderer.RowDiff | src/renderer.rs:127-133 | the entries the inner loop of `diff_buffers` pushes for the first x columns of a row; `RowDiffMembers` and `RowDiffOrdered` state its properties |
| Renderer.RowsDiff | src/renderer.rs:126-134 | the entries the outer loop pushes for the first y rows; `RowsDiffMembers` and `RowsDiffOrdered` state its properties |
| Renderer.DiffSpec | src/renderer.rs:119-137 | the specification of `diff_buffers` over the overlap of the two grids; `DiffSpecSoundAndComplete`, `DiffSpecOrdered` and `DiffSpecOfIdentical` state its properties |
| Renderer.DefaultCell | src/renderer.rs:142-147 | a space, opaque white fg, the given bg, not bold |
| Renderer.BackgroundCell | src/renderer.rs:203-207 | a space, opaque black fg, the given bg, not bold |
| Renderer.RowMajorInBounds | src/renderer.rs:159-167 | an in-range (x, y) has its row-major index inside the buffer |
| Renderer.RowMajorInjective | src/renderer.rs:159-167 | distinct in-range positions have distinct row-major indices |
| Renderer.RowMajorOfIndex | src/renderer.rs:95 | every buffer index is the row-major index of one in-range position |
| Renderer.ScreenBuffer.constructor | src/renderer.rs:141-153 | exactly width*height cells, each the default cell for the given background |
| Renderer.ScreenBuffer.Get | src/renderer.rs:163-169 | None exactly when x >= width or y >= height, else the cell at y*width + x |
| Renderer.ScreenBuffer.GetMut | src/renderer.rs:155-161 | the same bounds test, handing out the index y*width + x of the cell to mutate |
| Renderer.GetCoversEveryCell | src/renderer.rs:163-169 | every cell is reachable through `get` at exactly one position |
| Renderer.Painted | src/renderer.rs:190-194 | a painted cell takes character i of the text and the call's fg, bg and bold |
| Renderer.PaintRun | src/renderer.rs:185-197 | painting one call keeps the cell count |
| Renderer.PaintRunFromAt | src/renderer.rs:185-197 | from character i on, a cell changes only if the call covers it at or after column x + i |
| Renderer.PaintRunAt | src/renderer.rs:185-197 | one call paints (x + i, y) with character i exactly while x + i < width and y < height, and leaves every other cell |
| Renderer.Compose | src/renderer.rs:178-199 | composing keeps the cell count |
| Renderer.LastCover | src/renderer.rs:178-199 | the last call covering a position, or none |
| Renderer.ComposeAt | src/renderer.rs:178-199 | each cell ends as painted by the last call covering it, or unchanged if none covers it |
| Renderer.ComposeUncovered | src/renderer.rs:178-199 | cells covered by no call are unchanged |
| Renderer.ComposeLaterWins | src/renderer.rs:178-199 | a later call wins over earlier ones at the same cell |
| Renderer.ComposeBuffer | src/renderer.rs:178-199 | the in-place loops leave the buffer equal to the composition of the calls over the old cells |
| Renderer.PaintCall | src/renderer.rs:180-197 | the inner loop paints one call exactly as the run specification says, stopping at the end of the text or an edge of the grid |
| Renderer.FillScreenBackground | src/renderer.rs:201-209 | every cell becomes a space with opaque black fg, the given bg and not bold; the cell count is unchanged |
| Renderer.RowDiffMembers | src/renderer.rs:127-133 | a row's diff holds exactly the changed cells of that row before column x, carrying the new cell |
| Renderer.RowDiffOrdered | src/renderer.rs:127-133 | a row's diff is in increasing column order |
| Renderer.RowsDiffMembers | src/renderer.rs:126-134 | the diff of the first y rows holds exactly their changed cells within width w |
| Renderer.RowsDiffOrdered | src/renderer.rs:126-134 | the diff of the first y rows is in row-major order |
| Renderer.DiffSpecSoundAndComplete | src/renderer.rs:119-137 | (x, y, c) is in the diff iff x < min width, y < min height, the cells differ and c is the new cell |
| Renderer.DiffSpecOrdered | src/renderer.rs:119-137 | the diff is in strictly increasing row-major order |
| Renderer.DiffSpecOfIdentical | src/renderer.rs:119-137 | diffing identical buffers yields an empty list |
| Renderer.Screen.constructor | src/renderer.rs:106-113 | two fresh buffers of the given size with equal default contents |
| Renderer.Screen.SwapBuffers | src/renderer.rs:115-117 | exchanges the old and new buffers |
| Renderer.Screen.DiffBuffers | src/renderer.rs:119-137 | the nested loops return exactly the diff specification of the two buffers |
| Renderer.Screen.DiffRow | src/renderer.rs:127-133 | the inner loop returns, left to right, the columns of row y in the overlap whose old and new cells differ, each with its new cell |
| Renderer.NewScreenDiffIsEmpty | src/renderer.rs:106-137 | a screen whose buffers still hold the same contents, as after `Screen::new`, has an empty diff |
| Slots.TruncToI16 | src/slots.rs:131 | `f as i16` rounds toward zero and saturates at the `i16` bounds |
| Slots.WrapI16 | src/slots.rs:130 | `len as i16` keeps lengths up to 32767 and wraps larger ones |
| Slots.GetColumnCardIndex | src/slots.rs:129-134 | the index is always inside the reel; for reels shorter than 32768 cards it is (truncated cursor + offset) rem_euclid length |
| Slots.CardIndexInsideReel | src/slots.rs:131-132 | a position inside the reel is its own index; one up to a reel length below zero wraps to position + length |
| Slots.CardIndexIsPeriodic | src/slots.rs:131-132 | offsets a reel length apart give the same index |
| Slots.ModUnique | src/slots.rs:132 | the Euclidean remainder is the only remainder in [0, n) |
| Slots.MatchingFrom | src/slots.rs:342-357 | among the first n columns, exactly those whose centre card has the target rank, ascending |
| Slots.SlotsCenterRowIndexesMatchingCard | src/slots.rs:342-357 | exactly the columns whose centre card (offset 0) has the target's rank, in ascending order |
| Slots.MatchingIgnoresSuit | src/slots.rs:351-352 | targets of equal rank select the same columns, whatever their suits |
| Slots.MatchingFromIgnoresSuit | src/slots.rs:351-352 | the same over the first n columns |
| Slots.AllStopped | src/slots.rs:126 | true iff every column's spin speed is 0 |
| Slots.SlotsAreSpinning | src/slots.rs:125-127 | true iff every column's spin speed is 0, so vacuously true with no columns |
| Slots.UsizeOf | src/slots.rs:51 | `spin_count as usize` keeps non-negative counts and wraps negative ones beyond any table |
| Slots.SpinCostLookup | src/slots.rs:50-52 | the table answers exactly when 0 <= spin_count < table length, with the entry at spin_count |
| CardSlot.SlotAt | src/card_slot.rs:20-25 | slot i is on row origin_y, empty, at origin_x + i*x_spacing |
| CardSlot.SlotsUpTo | src/card_slot.rs:19-26 | the first n slots, each as `SlotAt` gives it |
| CardSlot.BuildCardSlots | src/card_slot.rs:13-27 | exactly `count` slots, all on row origin_y, all empty, slot i at origin_x + i*x_spacing |
| CardSlot.WrappedSlotsCollide | src/card_slot.rs:22 | `index as u16` wraps: with 65537 slots, slot 65536 lands on slot 0 |
| CardSlot.SlotsAreEvenlySpaced | src/card_slot.rs:19-26 | with positive spacing and at most 65536 slots, consecutive slots are x_spacing apart and strictly left to right |

## Left out

- The alpha-blending compositor (source-over blend, tint and backdrop rules), `Hsl`, `packed_rgb_to_rgba` and `point_in_rect` are defined in none of the files modelled here. The renderer models the overwrite compositor that `compose_buffer` actually is.
- `src/shader.rs` is not part of this model: its tables are built with `powf`, `sqrt` and `sin`, and it calls blend helpers that are not available.
- Float numerics are left out: `RGBA::from_f32`, `RGBA::lerp`, `utils::lerp`, `lerp_hue` and the FPS counters' moving averages. In the renderer, alpha is a `real`, and only equality, copying and the clamp are modelled; NaN is not modelled.
- The fps-to-`Duration` conversion (`from_secs_f32(1.0 / fps)`) is a positive `period` parameter, and `as_secs_f32` on the delta is left out: deltas are integer nanoseconds.
- `Instant::now()`, `thread::sleep` and `spin_loop` are not executed. The clock gives a fixed monotone list of readings, and sleeping only records the requested duration. The pacers' preconditions ask that the deadline is eventually reached.
- Terminal I/O and event dispatch are left out: `src/engine/mod.rs`, `src/engine/input.rs`, `src/input.rs` and `src/main.rs`.
- `EngineDraw.Engine` holds only the screen and the draw queue. The engine struct in `src/engine/mod.rs` lacks the draw queue that `src/engine/draw.rs` pushes onto, so the rest of that struct is left out.
- The draw producers of `src/hand.rs`, `src/table.rs` and `src/slots.rs`, `src/button.rs` and `draw_fps_counter` use HSL tinting, float formatting and helpers that are not available.
- `PokerHand::repr` is display text with no property to state.
- `spin_cost`'s fallback branch, `build_spin_cost_lut`, `calc_column_spin_duration_sec` and `spin_slots_column` are float formulas over `powf` and timers. `Slots.SpinCostLookup` returns `None` where the fallback would run.
- `src/context.rs`, `src/constants.rs` and `src/dragged_card.rs` hold data declarations only. The card colours of `src/constants.rs` are opaque constants here.
- `src/engine/screen.rs:1` imports the two-flag `Attributes` of `src/engine/attributes.rs` (BOLD, ITALIC). The model uses the four-flag `EngineRichText.Attributes` of `src/engine/rich_text.rs` instead, so that a cell can hold what a rich text carries. The two agree on BOLD and ITALIC, and the screen only ever stores the empty value.
- `crate::card`, imported at `src/poker_hand.rs:4`, `src/slots.rs:2` and `src/card_slot.rs:1`, is not part of this model; `mod card` is commented out at `src/main.rs:2`. The model takes its `Card`, `Rank` and `Suit` to be the `PlayingCard`, `Rank` and `Suit` of `src/playing_card.rs`.
- `Color`, and `Color::WHITE` and `Color::CLEAR`, are used at `src/engine/rich_text.rs:3` and `:28` and at `src/engine/draw.rs:20`, but `src/engine/color.rs` defines only `PackedRgba`. The model takes `Color` to be `PackedRgba` with its WHITE. `CLEAR` is a constant whose value is left unspecified.
- `Renderer.ScreenBuffer.constructor`: `width * height` is unbounded, and the `usize` overflow of that product is not modelled.
- `Renderer.ScreenBuffer.GetMut`: returns the index of the cell instead of a mutable reference. Callers write through the buffer's array.
- `Slots.GetColumnCardIndex`: the cursor is a `real`, so the NaN and infinity cases of `f32 as i16` are not modelled. The precondition excludes the `i16` overflow of the sum, a reel length that wraps to 0 in `i16`, and `MIN rem_euclid -1`, each of which panics in the source.
- `Slots.SlotsAreSpinning`: the name is the source's. It is true when every reel has stopped, which is how `src/main.rs` would use it to enter the post-spin state; that call, at `src/main.rs:474-475`, is commented out.
- `EngineScreen.NewScreen`: requires cols*rows to fit in `u16`, because the source computes the capacity as a `u16` product, which panics on overflow.
- `EngineDraw.Engine.DrawRect`: requires width >= 0 (`as usize` on a negative `i16`) and the last row to fit in `i16`, because the source adds the row to `pos.y` in `i16`.
- `Poker.EvalPokerHand`: requires a non-empty hand, since the source's `unwrap` at line 302 panics on an empty one. It also requires every suit and rank count to stay below 256, because the `u8` counters would overflow.
- `Poker.Table.UpdateCurrentPokerHand`: requires the same `u8` count bound over the flattened table cards. The `Table` struct is not part of this model. It is assumed to hold `cards_on_table` as a list of optional cards and `poker_hand` as an optional hand, which is what `update_current_poker_hand` reads and writes.
- `src/playing_card.rs` builds its text with a renderer revision that has `with_fg`/`with_bg`/`with_bold` and `u16` draw-call positions. Those are mapped onto the `RichText` and `DrawCall` of `src/renderer.rs`.
- `PlayingCard.DrawCallsPlayingCardBig`: requires x and y to stay in `i16` range, so that `-x` and `y + row_index` do not overflow.
- `CardSlot.BuildCardSlots`: requires the `u16` sum `origin_x + index as u16 * x_spacing` not to overflow. Overflow panics in the source.
- `EngineFpsLimiter.FpsLimiter.WaitForNextFrame`: computes the sleep with the corrected `SleepRemaining` (see Findings). The source's subtraction can panic there.

Where the code departs from the system's written design, the model follows the code:

- The renderer's compositor overwrites cells instead of blending them.
- `fill_screen_background` paints an opaque black foreground.
- The poker evaluator keeps its quirks as written:
  - flush cards are the first five after a descending sort by `Rank`'s derived order. With Ace first and Num2 last in that order, they are the suit's lowest-ranked cards (`Poker.FlushCardsHaveGreatestKeys`);
  - HighCard returns a card of the greatest rank index, which is the lowest rank;
  - RoyalFlush tests whether the first rank index present is Num10;
  - the Ace-low straight window cannot match.

## Findings

| source | as written | input that shows it | evidently intended | confidence | as-written member | corrected member |
|---|---|---|---|---|---|---|
| src/engine/fps_limiter.rs:39-43 | the loop guard reads the clock, then the body reads it again and computes `deadline - now - spin_reserve` with `Duration` subtraction, which panics when the second reading is already inside the spin window | deadline 10, spin reserve 2, guard reading 0 (0 + 2 < 10, so the body runs), second reading 9 (10 - 9 - 2 underflows) | the time left before the spin window, clamped at zero (or computed from the guard's own reading), as `src/fps_limiter.rs:46-48` does | not executed | EngineFpsLimiter.SleepRemainingAsWritten, EngineFpsLimiter.SleepRemainingAsWrittenCanPanic | EngineFpsLimiter.SleepRemaining |
