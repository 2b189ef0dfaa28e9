# Verified models of the advent puzzle solvers

This project models, in Dafny, the solvers of a collection of programming
puzzles and proves what each solver promises. Each source file becomes one
module in one `.dfy` file. Pure code becomes datatypes, functions and lemmas.
Code that updates state step by step becomes methods with loops, or classes
whose methods change their fields. Most methods are proved equal to a reference
function, and the properties are proved as lemmas about those functions. The
exceptions are the snailfish reduction loop and its callers, and the mine
carts' rotate phase. Their weaker contracts are listed under "Left out".

- **Mine carts** (`mine_rotation.dfy`, `mine_track.dfy`, `mine_carts.dfy`,
  from `2018/13/day13`). This is the centre of the model. It covers:
  - the direction and turn tables;
  - the track builder, which turns text into rows of segments;
  - one tick: every cart moves one cell in reading order, the first
    collision is recorded, and then every cart turns by the segment under
    it;
  - the search for the first collision;
  - the renderer.
  Proved: the move relocates every cart exactly once, so the number of carts
  is kept. The first collision is never overwritten. A collision cell is
  occupied. The curve maps are involutions. The turn tables are bijections.
  Parsing a track's text gives the track back.
- **Snailfish numbers** (`snailfish.dfy`, `2021/src/bin/day18.rs`). Numbers
  are kept as flat symbol sequences, and a `Tree` gives them their meaning.
  The imperative one-step reducer (`ReducerOnce`) is proved to agree with a
  tree-level reference step, and every single-step example in the
  repository's tests (five explosions and a five-step reduction after an
  addition) is proved against that step. Magnitude and maximum depth are
  proved correct for every tree. Reading a number back from its displayed
  text gives the same number.
- **Packet decoder** (`packets.dfy`, `2021/src/bin/day16.rs`). Hexadecimal
  text becomes a bit stream (a class whose methods consume it). The
  evaluators are proved to agree with decoding functions. An encoder on a
  `Packet` datatype gives a round trip: decoding the encoding of any
  well-formed packet yields its value. The transmissions of the tests are
  worked through the decoder (`packet_text.dfy`, `packet_samples.dfy`):
  the `bit_string` of each `test_parse` text, and the value of each
  `test_solve` transmission.
- **Bracket checker** (`brackets.dfy`, `2021/src/bin/day10.rs`): corrupt
  lines, completions, and the completion score. The score is proved
  injective by reading it back.
- **Polymer pair counts** (`polymer.dfy`, `2021/src/bin/day14.rs`). Updating
  the pair counts is proved to equal counting the pairs of the grown chain.
- **Further kernels**:
  - the handheld console (`handheld.dfy`);
  - the memory game (`memory_game.dfy`, a class);
  - the almanac range maps (`range_map.dfy`);
  - two homework evaluators over shared tokens (`homework.dfy`,
    `homework_left.dfy`, `homework_plus.dfy`);
  - the bus timestamp solver by the Chinese remainder construction
    (`bus_schedule.dfy`);
  - camel-card hands (`camel_cards.dfy`), with the types of the test hands
    and three of the orderings the tests check;
  - passport validation (`passports.dfy`);
  - seat-cell rules (`seats.dfy`);
  - the pipe-maze directions and tiles (`pipe_direction.dfy`,
    `pipe_tile.dfy`);
  - the deterministic dice game (`dirac_dice.dfy`);
  - floating memory addresses (`floating_address.dfy`);
  - the card game Combat (`combat.dfy`);
  - difference-row extrapolation (`oasis.dfy`).
- **Shared helpers**: `outcomes.dfy` holds the shared `Option` and `Result`
  types, and `arithmetic.dfy` holds shared facts about division and digits.

Panics, `expect`, `unwrap` and raised exceptions in the source are mostly
modelled as error results. Some `assert!`s that check the caller's arguments
become preconditions instead, and each of these is listed under "Left out".
Loops that need not terminate take a `fuel` bound. Integers are unbounded.

The renderer of `2018/13/day13/part1.py` draws a cell holding two or more
carts with the collision glyph `X` (`COLLISION_CHAR`, line 13), and so does
the model. The direction enumeration of the mine carts (`direction.py`) is not
modelled. Its order (down, left, right, up) and glyphs (`v < > ^`) are
reconstructed from how `rotation.py` and `part1.py` use it.

## Model

| member | source | states |
|---|---|---|
| PipeDirection.Index | 2023/day10/src/direction.rs:1-8 | the `u32` representation of a direction is below 4 |
| PipeDirection.IndexInjective | 2023/day10/src/direction.rs:1-8 | distinct directions have distinct representations |
| PipeDirection.Iter | 2023/day10/src/direction.rs:11-19 | `iter` yields four directions, the one at position i being the one numbered i (North, East, South, West) |
| PipeDirection.IterOnce | 2023/day10/src/direction.rs:11-19 | every direction occurs exactly once in `iter` |
| PipeDirection.Reverse | 2023/day10/src/direction.rs:21-28 | `reverse` is a half turn: number + 2 modulo 4 |
| PipeDirection.Left | 2023/day10/src/direction.rs:30-37 | `left` is a counter-clockwise quarter turn: number + 3 modulo 4 |
| PipeDirection.Right | 2023/day10/src/direction.rs:39-47 | `right` is a clockwise quarter turn: number + 1 modulo 4 |
| PipeDirection.ReverseInvolution | 2023/day10/src/direction.rs:21-28 | reversing twice gives back the direction |
| PipeDirection.LeftRightInverse | 2023/day10/src/direction.rs:30-47 | `left` and `right` undo each other, both ways round |
| PipeDirection.LeftTwiceReverses | 2023/day10/src/direction.rs:21-47 | two lefts, and two rights, are `reverse` |
| PipeDirection.LeftFourTimes | 2023/day10/src/direction.rs:30-37 | four lefts give back the direction |
| PipeTile.TileIndex | 2023/day10/src/tile.rs:3-14 | the `u32` representation of a tile is below 8 |
| PipeTile.FromAscii | 2023/day10/src/tile.rs:17-29 | `from_ascii` returns the tile drawn with that byte, and fails (the source panics) exactly when no tile is drawn with it |
| PipeTile.FromTileByte | 2023/day10/src/tile.rs:17-29 | each of `\| - L J 7 F . S` reads back as its own tile |
| PipeTile.NorthBits | 2023/day10/src/tile.rs:31-33 | the mask bits 4·tile + 0 of 0xF06C93A5, one per tile |
| PipeTile.EastBits | 2023/day10/src/tile.rs:31-33 | the mask bits 4·tile + 1 |
| PipeTile.SouthBits | 2023/day10/src/tile.rs:31-33 | the mask bits 4·tile + 2 |
| PipeTile.WestBits | 2023/day10/src/tile.rs:31-33 | the mask bits 4·tile + 3 |
| PipeTile.IsOpenToMeaning | 2023/day10/src/tile.rs:31-33 | `is_open_to` holds exactly for the sides the tile's shape connects: \| N,S; - E,W; L N,E; J N,W; 7 S,W; F E,S; ground none; start all four |
| PipeTile.OpenToNorth | 2023/day10/src/tile.rs:42-80 | the mask agrees with the drawn shapes for North, tile by tile |
| PipeTile.OpenToEast | 2023/day10/src/tile.rs:42-80 | the same for East |
| PipeTile.OpenToSouth | 2023/day10/src/tile.rs:42-80 | the same for South |
| PipeTile.OpenToWest | 2023/day10/src/tile.rs:42-80 | the same for West |
| PipeTile.OpeningCounts | 2023/day10/src/tile.rs:41-81 | a pipe piece opens two ways, the ground none and the start four |
| PipeTile.PipeShapes | 2023/day10/src/tile.rs:41-81 | straight pipes open to opposite sides; each bend opens to exactly one of the two sides a quarter turn from an opening |
| Seats.FromChar | 2020/src/day11/grid/spot.rs:12-19 | `from_char` succeeds exactly on '.', 'L' and '#', giving the spot drawn with that character; any other character is an error naming it |
| Seats.FromSpotChar | 2020/src/day11/grid/spot.rs:12-19 | Floor, Empty and Occupied parse back from '.', 'L' and '#' |
| Seats.Next | 2020/src/day11/grid/spot.rs:23-29 | floor stays floor; a spot changes only when it is empty with no occupied neighbour (it becomes occupied) or occupied with more than 3 (it becomes empty) |
| Seats.NextChanges | 2020/src/day11/grid/spot.rs:23-29 | both directions: a spot changes exactly in those two cases |
| Seats.NextIdempotent | 2020/src/day11/grid/spot.rs:23-29 | a second round under the same neighbour count changes nothing more |
| Seats.ParseLine | 2020/src/day11/grid/spot.rs:31-33 | `parse_line` keeps the length and parses each character in place, or fails with the first character that is not a spot |
| Seats.LineText | 2020/src/day11/grid/spot.rs:12-19 | the text of a row draws each spot with its own character |
| Seats.ParseLineText | 2020/src/day11/grid/spot.rs:31-33 | parsing the text of any row gives the row back |
| MemoryGame.LastIndexOf | 2020/src/day15/game.rs:34-46 | the last position at which a number was said, absent exactly when it was never said |
| MemoryGame.LatestTurnsAreLastIndices | 2020/src/day15/game.rs:16-29 | the table of `start` holds exactly the numbers said, each with the 1-based turn of its last saying |
| MemoryGame.Game.constructor | 2020/src/day15/game.rs:16-29 | `start` records the latest turn of each of the first n-1 numbers, `last` is the final number and `time` is n |
| MemoryGame.Game.Next | 2020/src/day15/game.rs:34-49 | `next` always returns Some: 0 when the last number was new, else (time-1) minus its previous turn; the last number is recorded at turn time-1 and the table stays the latest turn of every earlier number |
| MemoryGame.Play | 2020/src/day15/game.rs:31-50 | calling `next` `turns` times after `start` says exactly the numbers that follow the starting ones in the game |
| MemoryGame.SpokenAppend | 2020/src/day15/game.rs:34-49 | one more number said by the rule extends what the game has said |
| MemoryGame.SpokenNext | 2020/src/day15/game.rs:34-49 | past the starting numbers, each turn appends the number the rule says |
| MemoryGame.SpokenStep | 2020/src/day15/game.rs:34-49 | one turn from a known history |
| MemoryGame.SaysAfter036 | 2020/src/day15/game.rs:57-66 | the rule's answer after each prefix of 0,3,6,0,3,3,1,0,4 |
| MemoryGame.Example036 | 2020/src/day15/game.rs:57-66 | starting from 0,3,6 the game says 0,3,3,1,0,4,0 |
| MemoryGame.Opening036 | 2020/src/day15/game.rs:57-61 | the first three of those turns |
| MemoryGame.Closing036 | 2020/src/day15/game.rs:62-65 | the next four |
| Combat.Round | 2020/src/day22/part1.rs:3-15 | `round` answers None exactly when either deck is empty |
| Combat.RoundWinner | 2020/src/day22/part1.rs:4-11 | the higher card's owner keeps the rest of their deck and puts their own card, then the other, at the bottom; on a tie the second player takes them |
| Combat.RoundKeepsCards | 2020/src/day22/part1.rs:3-15 | a round keeps the multiset of cards in play, so the total number of cards |
| Combat.PlayedOver | 2020/src/day22/part1.rs:17-22 | a finished game has an empty deck and still holds every card dealt |
| Combat.PlayedMonotone | 2020/src/day22/part1.rs:17-22 | once the game is over, more rounds change nothing |
| Combat.Play | 2020/src/day22/part1.rs:17-22 | `play` runs rounds until a deck is empty, within `fuel` rounds, and gives the decks the rounds reach |
| Combat.ScoreSnoc | 2020/src/day22/deck.rs:25-30 | putting a card under the deck adds it once and every card above it once more, so the bottom card counts once and the top card `len` times |
| Combat.Solve | 2020/src/day22/part1.rs:24-28 | `solve` scores the deck of whoever still holds cards once the game is over |
| Combat.Winner | 2020/src/day22/part1.rs:26 | once a deck is empty, the other deck holds every card in play |
| Combat.WinnerHoldsAll | 2020/src/day22/part1.rs:24-28 | the winner of a finished game holds every card dealt |
| Oasis.Deltas | 2023/day9/src/row.rs:7-14 | a non-empty row has one difference fewer than it has values |
| Oasis.IntoDeltas | 2023/day9/src/row.rs:8-14 | `into_deltas` gives the len-1 consecutive differences and the original last value; the empty row gives (empty, None) |
| Oasis.Solve | 2023/day9/src/row.rs:29-37 | `solve` adds the last values of the successive difference rows until a row is all zero: the extrapolated next value |
| Oasis.DeltasSnoc | 2023/day9/src/row.rs:7-14 | one more value adds one more difference at the end |
| Oasis.ExtrapolateLast | 2023/day9/src/row.rs:29-37 | the next value exceeds the last one by the next difference, zero rows included |
| Oasis.ExtrapolateExtends | 2023/day9/src/row.rs:29-37 | appending the predicted value extends the difference row by its own predicted value: the prediction is consistent at every level |
| Oasis.Backward | 2023/day9/src/row.rs:24-27 | `backward` reverses the values |
| Oasis.Negate | 2023/day9/src/row.rs:24-37 | every value negated (the differences of a reversed row) |
| Oasis.ExtrapolateNegate | 2023/day9/src/row.rs:29-37 | solving a negated row gives the negated answer |
| Oasis.DeltasBackward | 2023/day9/src/row.rs:7-27 | the differences of the reversed row are the reversed differences, negated |
| Oasis.BackwardMeaning | 2023/day9/src/row.rs:24-37 | solving the reversed row gives the value before the first: the first value minus the value before the first difference |
| Oasis.ZeroRow | 2023/day9/src/row.rs:29-37 | an all-zero or empty row solves to 0, forwards and backwards |
| Oasis.Level | 2023/day9/src/row.rs:29-37 | one level of both extrapolations for a row with a nonzero value |
| Oasis.TwoLevels | 2023/day9/src/row.rs:29-37 | two difference rows above an all-zero row |
| Oasis.ThreeLevels | 2023/day9/src/row.rs:29-37 | three difference rows above an all-zero row |
| Oasis.FourLevels | 2023/day9/src/row.rs:29-37 | four difference rows above an all-zero row |
| Oasis.SampleA | 2023/day9/src/row.rs:46-58 | 0 3 6 9 12 15 gives 18 forwards and -3 backwards |
| Oasis.SampleB | 2023/day9/src/row.rs:46-58 | 1 3 6 10 15 21 gives 28 and 0 |
| Oasis.SampleC | 2023/day9/src/row.rs:46-58 | 10 13 16 21 30 45 gives 68 and 5 |
| DiracDice.WrapAdd | 2021/src/bin/day21.rs:8-11 | `wrap_add`, given i > 0, lands in 1..=n |
| DiracDice.WrapAddCongruent | 2021/src/bin/day21.rs:8-11 | the space reached is i + d counted modulo n |
| DiracDice.WrapAddCompose | 2021/src/bin/day21.rs:8-11 | moving a steps and then b steps is moving a + b steps |
| DiracDice.WrapAddWithin | 2021/src/bin/day21.rs:8-11 | a move that does not pass n is plain addition |
| DiracDice.WrapInc | 2021/src/bin/day21.rs:13-15 | `wrap_inc` lands in 1..=n |
| DiracDice.WrapIncLast | 2021/src/bin/day21.rs:13-15 | wrap_inc(n, n) = 1 |
| DiracDice.Face | 2021/src/bin/day21.rs:26-29 | the face k rolls after a given one is in 1..=100 |
| DiracDice.FreshDieFaces | 2021/src/bin/day21.rs:21-29 | a new die shows 1, 2, ..., 100 and then starts again |
| DiracDice.FacePeriod | 2021/src/bin/day21.rs:21-29 | the faces repeat every 100 rolls |
| DiracDice.ThreeRolls | 2021/src/bin/day21.rs:31-33 | three rolls that do not pass 100 add up to three times the middle face |
| DiracDice.Die.constructor | 2021/src/bin/day21.rs:22-24 | a new die shows 1 next |
| DiracDice.Die.Roll | 2021/src/bin/day21.rs:26-29 | `roll` returns the face shown and moves the die on to `wrap_inc(next, 100)` |
| DiracDice.Die.RollSum | 2021/src/bin/day21.rs:31-33 | `roll_sum(n)` is the sum of the next n faces, and the die moves on n faces |
| DiracDice.Player.constructor | 2021/src/bin/day21.rs:82-91 | a player starts on its space with score 0 |
| DiracDice.Player.Advance | 2021/src/bin/day21.rs:74-77 | `advance` moves the position round the 10 spaces and adds the new position to the score |
| DiracDice.TakeTurnPlaying | 2021/src/bin/day21.rs:92-97 | a turn raises only the mover's score, and the game is over or still in play after it |
| DiracDice.Play | 2021/src/bin/day21.rs:93-97 | turns end with the last mover at 1000 or more and the other player still short of it |
| DiracDice.Finish | 2021/src/bin/day21.rs:93-97 | the end of a game, which is over |
| DiracDice.PlayOut | 2021/src/bin/day21.rs:93-97 | the `while` loop, on the die and player objects, reaches the end of the game |
| DiracDice.Solve | 2021/src/bin/day21.rs:80-101 | `solve` gives the loser's score times the number of rolls of the game played out from the two starts |
| DiracDice.Outcome | 2021/src/bin/day21.rs:80-101 | there is no answer exactly when a start is 0, which trips the `i > 0` assertion of `wrap_add`; otherwise the answer is a multiple of three, since every turn rolls three times |
| DiracDice.OutcomeOf | 2021/src/bin/day21.rs:98-100 | the answer is the loser's score times three rolls per turn |
| FloatingAddress.FindNext | 2020/src/day14/masked.rs:4-19 | `find_next` returns None exactly when every floating bit of the address is 1; otherwise it sets the lowest floating 0 bit and clears the floating bits below it |
| FloatingAddress.Flip | 2020/src/day14/masked.rs:10-16 | the flipped address sets bit k, clears the floating bits below k and keeps every bit outside the mask and every bit above k |
| FloatingAddress.Cleared | 2020/src/day14/masked.rs:13-16 | the address with the floating bits below i cleared, every other bit kept |
| FloatingAddress.FirstOpen | 2020/src/day14/masked.rs:6-17 | the lowest floating bit at or above i that is clear, absent exactly when all of them are set |
| FloatingAddress.NextFromCleared | 2020/src/day14/masked.rs:6-18 | the loop resumed at bit i, with the floating ones below cleared, flips the first clear floating bit from i or finds none |
| FloatingAddress.NextMeaning | 2020/src/day14/masked.rs:4-19 | the closed form of `find_next`: None iff every floating bit is set, else the flip at the lowest clear floating bit |
| FloatingAddress.NextKeepsFixedBits | 2020/src/day14/masked.rs:8-9 | `find_next` never changes a bit outside the floating mask |
| FloatingAddress.Floating | 2020/src/day14/masked.rs:21-22 | the number of floating bits below n is at most n |
| FloatingAddress.CounterBound | 2020/src/day14/masked.rs:21-22 | the floating bits, read as a number, are below 2 to the number of floating bits |
| FloatingAddress.FlipBelow | 2020/src/day14/masked.rs:12-16 | below the lowest clear floating bit the counter is all ones, and after the flip all zeros |
| FloatingAddress.FlipAbove | 2020/src/day14/masked.rs:12-16 | from the flipped bit upwards the counter goes up by exactly one |
| FloatingAddress.AllSetCounter | 2020/src/day14/masked.rs:18 | with every floating bit set the counter is at its maximum |
| FloatingAddress.NextIncrements | 2020/src/day14/masked.rs:4-19 | `find_next` adds one to the counter of floating bits, and stops exactly at its maximum |
| FloatingAddress.YieldsCount | 2020/src/day14/masked.rs:41-47 | the iterator yields the pending address and its successors, one counter value each, until the maximum |
| FloatingAddress.Doubling | 2020/src/day14/masked.rs:21-22 | starting with every floating bit 0, a `Masked` yields 2 to the number of floating bits addresses: each floating bit doubles the count |
| FloatingAddress.ClearCounter | 2020/src/day14/masked.rs:21-22 | an address with its floating bits clear has counter 0 |
| FloatingAddress.Masked.constructor | 2020/src/day14/masked.rs:30-35 | `new` holds the mask and the first address as the next one |
| FloatingAddress.Masked.Next | 2020/src/day14/masked.rs:41-47 | `next` returns the pending address and replaces it with its `find_next`; once empty it yields None; what remains to yield is what was pending minus the address returned |
| Handheld.AddOffset | 2020/src/bin/day8.rs:43-49 | `add_offset` moves the program counter by a signed offset; a target below 0 is the unsigned underflow the source panics on |
| Handheld.Step | 2020/src/bin/day8.rs:57-64 | acc adds its argument and moves to the next instruction, jmp moves by its argument (failing below 0), nop moves to the next instruction |
| Handheld.Execute | 2020/src/bin/day8.rs:51-71 | `execute` runs until the counter is at the end (Halt) or at an instruction already executed (Loop), reporting the accumulator; a counter past the end aborts as the source's index panic does |
| Handheld.RunHalts | 2020/src/bin/day8.rs:55-67 | a run reported as Halt really reaches the instruction just past the end, with the reported accumulator, after some number of single steps |
| Handheld.RunLoops | 2020/src/bin/day8.rs:55-69 | a run reported as Loop really comes back, with the reported accumulator, to an instruction executed earlier |
| Handheld.ExecutionMeaning | 2020/src/bin/day8.rs:17-22 | the two terminations mean what their comment says: Halt completed normally, Loop was about to enter an infinite loop, each with the accumulator at that point |
| Handheld.SolvePart1 | 2020/src/bin/day8.rs:73-79 | part 1 answers exactly when the program loops, with the accumulator before the first repeat; a halting program has no solution |
| Handheld.Flip | 2020/src/bin/day8.rs:83-98 | the repair swaps jmp and nop, keeping the argument, and leaves acc alone |
| Handheld.FlipTwice | 2020/src/bin/day8.rs:89 | flipping twice restores the instruction, as the source does after a flip whose program loops |
| Handheld.SolvePart2 | 2020/src/bin/day8.rs:81-102 | part 2 flips each jmp or nop of the program in place in turn, restores it when the run loops, and answers with the accumulator of the first run that halts |
| Handheld.RepairFromFinds | 2020/src/bin/day8.rs:82-100 | the repair from index i answers acc exactly when some flip k at or after i halts with acc and every flip between i and k loops |
| Handheld.RepairFinds | 2020/src/bin/day8.rs:81-102 | part 2 answers acc exactly when the first halting flip, in index order, halts with acc |
| Handheld.RepairFromNone | 2020/src/bin/day8.rs:101 | there is no solution exactly when every flipped program loops |
| RangeMap.InRangesConcat | 2023/day5/src/map.rs:54-55 | a number lies in the concatenation of two range lists exactly when it lies in one of them, which is what extending a list of ranges means |
| RangeMap.TryApply | 2023/day5/src/map.rs:9-13 | `try_apply` moves a number by the line's delta exactly when the line's source range contains it, and gives nothing otherwise |
| RangeMap.Shift | 2023/day5/src/map.rs:15-17 | the shifted range has the same length and contains x + delta exactly when the original contains x |
| RangeMap.ApplyRange | 2023/day5/src/map.rs:19-22 | an empty source range gives no parts and no moved range |
| RangeMap.ApplyRangeMeaning | 2023/day5/src/map.rs:19-48 | across all five overlap cases, a number of the source is in a part left alone exactly when the line does not contain it, and its moved image is in the moved range exactly when the line does contain it |
| RangeMap.ApplyRangeLength | 2023/day5/src/map.rs:19-48 | for a line whose range does not run backwards, the parts left alone and the moved range are together exactly as long as the source range |
| RangeMap.LineApplyRanges | 2023/day5/src/map.rs:50-58 | `MapLine::apply_ranges` collects, source by source, the parts left alone and the moved ranges |
| RangeMap.ApplyRangesMeaning | 2023/day5/src/map.rs:50-58 | over a list of sources, the parts left alone hold exactly the numbers of the sources the line does not contain, and the moved ranges exactly the images of those it does |
| RangeMap.Lookup | 2023/day5/src/map.rs:93-100 | with no lines a number maps to itself |
| RangeMap.LookupFirst | 2023/day5/src/map.rs:94-97 | a number is moved by the first line whose source range contains it, whatever later lines say |
| RangeMap.LookupNone | 2023/day5/src/map.rs:99 | a number no line contains maps to itself |
| RangeMap.Apply | 2023/day5/src/map.rs:93-100 | `Map::apply` returns the number's image under the first line containing it, or the number itself |
| RangeMap.MapApplyRanges | 2023/day5/src/map.rs:102-111 | `Map::apply_ranges` feeds what each line leaves alone to the next line, collects every line's moved ranges, and finally adds what no line moved |
| RangeMap.MapRangesMeaning | 2023/day5/src/map.rs:102-111 | the ranges a map gives hold exactly the images, under `Map::apply`, of the numbers in the source ranges |
| RangeMap.ParseI64 | 2023/day5/src/map.rs:65-69 | a number that parses is within the range of a 64-bit signed integer |
| RangeMap.SplitWord | 2023/day5/src/map.rs:64 | splitting at the first space gives a word without spaces and the rest, which joined by a space give back the line; without a space the whole line is the word |
| RangeMap.ParseLine | 2023/day5/src/map.rs:60-85 | a line that parses is three words, the first two without spaces, joined by single spaces and each a 64-bit number, giving delta target - source over the range source..source + length |
| RangeMap.ParseLines | 2023/day5/src/map.rs:117-118 | a map that parses has one map line per text line after the heading |
| RangeMap.NatText | 2023/day5/src/map.rs:65-69 | the decimal text of a number is a nonempty string of digits |
| RangeMap.NatTextValue | 2023/day5/src/map.rs:65-69 | reading the decimal text of a number gives the number back |
| RangeMap.IntTextParses | 2023/day5/src/map.rs:65-69 | the text of every 64-bit integer parses back to it and holds no space |
| RangeMap.ParseLineText | 2023/day5/src/map.rs:63-85 | the text "target source length" parses to the line with delta target - source over source..source + length |
| RangeMap.ParseWords | 2023/day5/src/map.rs:64-79 | three words separated by single spaces, each a number, parse as target start, source start and length, in that order |
| RangeMap.SplitAtSpace | 2023/day5/src/map.rs:64 | splitting a word without spaces followed by a space and a rest gives back the word and the rest |
| Homework.ApplyPartial | 2020/src/day18/partial.rs:11-20 | a pending + or * applied to its right operand gives the finished sum or product; a finished value followed by another value is the "consecutive values" error carrying both |
| Homework.TokenStack.constructor | 2020/src/day18/part1.rs:39-41 | the token stack starts as the vector handed to `eval_imp` |
| Homework.TokenStack.Pop | 2020/src/day18/part1.rs:7 | `Vec::pop` takes the last token off the stack, or gives nothing on an empty stack, which is left empty |
| Homework.Reverse | 2020/src/day18/part1.rs:40 | the reversed tokens have the same length, token k being token n-1-k of the original |
| Homework.ReverseConcat | 2020/src/day18/part1.rs:40 | reversing a concatenation reverses each part and swaps them |
| Homework.ReverseTokens | 2020/src/day18/part1.rs:39-42 | reversing the tokens of an expression stacks them with the first token on top, so popping yields them left to right |
| Homework.ReverseTermTokens | 2020/src/day18/part2.rs:59-62 | the same for a number or a parenthesised group: the opening parenthesis ends up on top |
| HomeworkLeft.Finish | 2020/src/day18/part1.rs:31-36 | the end of an expression yields a value only when the last partial result is finished; a pending + or * and no tokens at all are the three errors |
| HomeworkLeft.Left | 2020/src/day18/part1.rs:5-37 | the evaluation of a stack leaves no more tokens than it was given |
| HomeworkLeft.EvalImp | 2020/src/day18/part1.rs:5-37 | `eval_imp` gives the same error, or the same value with the same tokens left on the stack, as the recursive left-to-right evaluation |
| HomeworkLeft.EvalTokens | 2020/src/day18/part1.rs:39-42 | `eval` reverses the tokens and evaluates them with `eval_imp` |
| HomeworkLeft.LeftExpr | 2020/src/day18/part1.rs:7-30 | an expression on top of the stack evaluates to its strictly left-to-right value and leaves the stack beneath it untouched |
| HomeworkLeft.LeftOperator | 2020/src/day18/part1.rs:9-16 | an operator popped after a finished value makes it the left side of a pending + or * |
| HomeworkLeft.LeftTerm | 2020/src/day18/part1.rs:17-28 | a number, or a parenthesised group evaluated recursively up to its closing parenthesis, is used as a value: it completes the pending operation or starts the expression |
| HomeworkLeft.EvalExpr | 2020/src/day18/part1.rs:5-42 | evaluating the tokens of any expression gives its value with + and * at the same precedence, applied left to right |
| HomeworkLeft.EvalNothing | 2020/src/day18/part1.rs:35 | no tokens is the "expected tokens" error |
| HomeworkLeft.LeadingOperator | 2020/src/day18/part1.rs:9-16 | an operator with no value before it is the "unexpected +" or "unexpected *" error, whatever follows |
| HomeworkLeft.TrailingOperator | 2020/src/day18/part1.rs:31-33 | an expression followed by an operator is the "unsatisfied +" or "unsatisfied *" error |
| HomeworkLeft.Sample | 2020/src/day18/part1.rs:57-60 | 1 + 2 * 3 + 4 * 5 + 6 evaluates to 71 |
| HomeworkLeft.SampleParens | 2020/src/day18/part1.rs:62-65 | 1 + (2 * 3) + (4 * (5 + 6)) evaluates to 51 |
| HomeworkPlus.PushValue | 2020/src/day18/part2.rs:5-15 | a value pushed onto a pending sum completes that sum in place; onto anything else it becomes a new finished part above it |
| HomeworkPlus.PushValueOnto | 2020/src/day18/part2.rs:5-15 | `push_value`, popping the last part and pushing it back when it is not a pending sum, does what `PushValue` says |
| HomeworkPlus.Product | 2020/src/day18/part2.rs:17-31 | no parts multiply to 1, the empty product; the only error is "bad syntax", which a pending sum causes |
| HomeworkPlus.ProductConcat | 2020/src/day18/part2.rs:17-31 | the product of two lists of parts laid end to end is the product of their products |
| HomeworkPlus.PlusFirst | 2020/src/day18/part2.rs:33-57 | the evaluation of a stack leaves no more tokens than it was given |
| HomeworkPlus.EvalImp | 2020/src/day18/part2.rs:33-57 | `eval_imp` gives the same error, or the same value with the same tokens left on the stack, as the recursive evaluation over a list of partial results |
| HomeworkPlus.EvalTokens | 2020/src/day18/part2.rs:59-62 | `eval` reverses the tokens and evaluates them with `eval_imp` |
| HomeworkPlus.PartsOf | 2020/src/day18/part2.rs:33-57 | the partial results an expression leaves end with a finished value, the sum still growing |
| HomeworkPlus.FactorsOf | 2020/src/day18/part2.rs:5-15 | for every expression, the parts before the growing sum multiply to the product of the finished sums, and the last part is the growing sum |
| HomeworkPlus.PartsValue | 2020/src/day18/part2.rs:17-31 | the product of the parts an expression leaves is its value with + binding more tightly than * |
| HomeworkPlus.PlusFirstExpr | 2020/src/day18/part2.rs:35-55 | an expression on top of the stack, pushed onto parts a value cannot join, adds exactly its own partial results and leaves the stack beneath it |
| HomeworkPlus.BinStep | 2020/src/day18/part2.rs:35-55 | an expression followed by an operator and a term is evaluated as the expression, then the operator, then the term |
| HomeworkPlus.PopAfter | 2020/src/day18/part2.rs:37-50 | the operator after an expression turns its growing sum into a pending + or * |
| HomeworkPlus.PopOperator | 2020/src/day18/part2.rs:37-50 | an operator popped onto a finished value makes it pending |
| HomeworkPlus.PushAfterOperator | 2020/src/day18/part2.rs:5-15 | a value pushed after a pending + joins the growing sum; after a pending * it starts a new sum |
| HomeworkPlus.PushOnPending | 2020/src/day18/part2.rs:5-15 | pushing onto a pending sum completes it; pushing onto a pending product keeps it as a factor below the new value |
| HomeworkPlus.PlusFirstTerm | 2020/src/day18/part2.rs:51-53 | a number, or a parenthesised group evaluated recursively to its product, is pushed as a value |
| HomeworkPlus.PopValue | 2020/src/day18/part2.rs:53 | a number on top of the stack is pushed with `push_value` |
| HomeworkPlus.PopClose | 2020/src/day18/part2.rs:52-56 | a closing parenthesis ends the group with the product of its parts, leaving the stack beneath it |
| HomeworkPlus.PopOpen | 2020/src/day18/part2.rs:51 | an opening parenthesis evaluates the group inside and pushes its value |
| HomeworkPlus.EvalExpr | 2020/src/day18/part2.rs:33-62 | evaluating the tokens of any expression gives its value with + before *: the product of its sums |
| HomeworkPlus.EvalNothing | 2020/src/day18/part2.rs:17-30 | no tokens evaluate to 1, the empty product, and not to an error |
| HomeworkPlus.LeadingOperator | 2020/src/day18/part2.rs:37-49 | an operator with no value before it is the "unexpected +" or "unexpected *" error, whatever follows |
| HomeworkPlus.Sample | 2020/src/day18/part2.rs:76-80 | 1 + 2 * 3 + 4 * 5 + 6 evaluates to 231 |
| HomeworkPlus.SampleParens | 2020/src/day18/part2.rs:82-85 | 1 + (2 * 3) + (4 * (5 + 6)) evaluates to 51 |
| BusSchedule.OddHasNoEvenDivisor | 2020/src/day13/part2.rs:10-11 | an odd number has no even divisor, which is why trial division after 2 tries only odd numbers |
| BusSchedule.NoLargeDivisor | 2020/src/day13/part2.rs:14-20 | a number of at least 2 with no divisor below i, where i squared exceeds it, is prime |
| BusSchedule.Cofactor | 2020/src/day13/part2.rs:14 | the quotient by a divisor is a divisor too, so some divisor of a composite number is at most its square root |
| BusSchedule.IsPrime | 2020/src/day13/part2.rs:7-22 | `is_prime` answers true exactly when the number is at least 2 and has no divisor other than 1 and itself |
| BusSchedule.PrimesBelowTwenty | 2020/src/day13/part2.rs:102-107 | the primes below twenty are exactly 2, 3, 5, 7, 11, 13, 17 and 19 |
| BusSchedule.MultiplierFrom | 2020/src/day13/part2.rs:58-63 | the search from n finds the smallest multiplier below the bus id that scales the multiplicand onto the remainder, and fails with NoSolution exactly when none does |
| BusSchedule.FindMultiplier | 2020/src/day13/part2.rs:52-64 | `find_multiplier` returns the smallest N below the bus id with multiplicand * N % id == remainder, or NoSolution |
| BusSchedule.Ids | 2020/src/day13/part2.rs:67 | the ids of the buses, in order |
| BusSchedule.SumTermsStops | 2020/src/day13/part2.rs:71 | the first bus without a multiplier ends the sum: later buses do not change the error |
| BusSchedule.FindTimestamp | 2020/src/day13/part2.rs:66-76 | `find_timestamp` multiplies the ids, adds each bus's multiplicand times its multiplier, and reduces the sum modulo the product; an id of 0 is the division by zero the source panics on |
| BusSchedule.ProductFactor | 2020/src/day13/part2.rs:67 | any id can be taken out of the product of the ids as a factor |
| BusSchedule.OtherFactor | 2020/src/day13/part2.rs:70 | the product divided by one bus's id is still a multiple of every other bus's id |
| BusSchedule.ScaledMultiple | 2020/src/day13/part2.rs:72 | a multiple of an id times any multiplier is still a multiple of that id |
| BusSchedule.SumTermsIds | 2020/src/day13/part2.rs:70 | a sum that succeeds has only nonzero ids |
| BusSchedule.SumTermsZero | 2020/src/day13/part2.rs:69-74 | an id dividing every bus's multiplicand divides the sum of the terms |
| BusSchedule.SumTermsLast | 2020/src/day13/part2.rs:69-74 | a sum that succeeds is the sum for the buses before the last plus the last bus's term |
| BusSchedule.SumTermsMod | 2020/src/day13/part2.rs:69-74 | the sum of the terms leaves bus i's remainder modulo its id when every other multiplicand is a multiple of that id, the Chinese remainder construction |
| BusSchedule.TimestampMeaning | 2020/src/day13/part2.rs:66-76 | a timestamp found is below the product of the ids and leaves each bus's remainder modulo its id |
| BusSchedule.RemainderMeaning | 2020/src/day13/part2.rs:84-88 | the remainder computed for a bus is below its id, and a time leaving it makes the bus leave exactly its delay later |
| BusSchedule.LateBus | 2020/src/day13/part2.rs:84-85 | for a delay longer than the id, the first formula gives a remainder that, plus the delay, is a multiple of the id |
| BusSchedule.EarlyBus | 2020/src/day13/part2.rs:86-87 | for a delay not longer than the id, the second formula does the same |
| BusSchedule.ShiftedRemainder | 2020/src/day13/part2.rs:84-88 | reducing a time modulo the id keeps the bus leaving its delay later |
| BusSchedule.Remainders | 2020/src/day13/part2.rs:80-90 | each bus delay becomes the bus id with the remainder a timestamp must leave |
| BusSchedule.SolveBuses | 2020/src/day13/part2.rs:78-92 | with prime ids, an answer of `solve_buses` is a time at which every bus leaves exactly its delay later, and the only failure is NoSolution, never a division by zero |
| BusSchedule.SumTermsFails | 2020/src/day13/part2.rs:71 | with nonzero ids the only failure of the sum is a bus with no multiplier |
| BusSchedule.ProductPositive | 2020/src/day13/part2.rs:67 | the product of nonzero ids is positive, so the final modulo is defined |
| BusSchedule.ScalesOnto | 2020/src/day13/part2.rs:58-63 | modulo a prime, multiplying by a number strictly between 0 and the prime reaches every residue below the prime |
| BusSchedule.EuclidPrime | 2020/src/day13/part2.rs:79 | a prime that divides a product divides one of its factors |
| BusSchedule.PrimeDivisor | 2020/src/day13/part2.rs:79 | a prime that divides another prime is that prime |
| BusSchedule.PrimeNotDividingProduct | 2020/src/day13/part2.rs:67 | a prime does not divide a product of primes all different from it |
| BusSchedule.ProductDivides | 2020/src/day13/part2.rs:67-75 | when distinct primes each divide a number, their product is positive and divides it too |
| BusSchedule.TimesUnique | 2020/src/day13/part2.rs:75 | two times below the product of distinct prime ids that leave the same remainders are the same time |
| BusSchedule.MultiplierExists | 2020/src/day13/part2.rs:52-64 | `find_multiplier` succeeds for a prime id, a multiplicand it does not divide and any remainder below the id |
| BusSchedule.MultiplicandCoprime | 2020/src/day13/part2.rs:70 | with distinct prime ids, each bus's multiplicand, the product divided by its id, is not a multiple of that id |
| BusSchedule.SumTermsFound | 2020/src/day13/part2.rs:69-74 | with distinct prime ids and remainders below them, every bus finds its multiplier, so the sum succeeds |
| BusSchedule.TimestampFound | 2020/src/day13/part2.rs:66-76 | with distinct prime ids and remainders below them, `find_timestamp` always finds a timestamp |
| BusSchedule.MeetsRemainder | 2020/src/day13/part2.rs:84-88 | a time leaves the remainder computed for a bus exactly when the bus leaves its delay later |
| BusSchedule.SolveBusesEarliest | 2020/src/day13/part2.rs:78-92 | with distinct prime ids, for every time at which each bus leaves its delay later, `solve_buses` succeeds with that time modulo the product of the ids, so the answer is the earliest such time |
| BusSchedule.SolveBusesIs | 2020/src/day13/part2.rs:78-92 | with distinct prime ids, a time below the product of the ids at which each bus leaves its delay later is exactly the answer |
| BusSchedule.PrimeByTrial | 2020/src/day13/part2.rs:13-20 | a number of at least 2 with no divisor from 2 up to some i whose square exceeds it is prime |
| BusSchedule.Example26 | 2020/src/day13/part2.rs:109-126 | remainders 2, 2 and 1 modulo 3, 4 and 5 give the timestamp 26 |
| BusSchedule.Example3417 | 2020/src/day13/part2.rs:133 | buses 17, x, 13, 19 first leave at their delays at 3417 |
| BusSchedule.SampleIds | 2020/src/day13/part2.rs:134-136 | 67, 7, 59 and 61 are distinct primes whose product is 1687931 |
| BusSchedule.Example754018 | 2020/src/day13/part2.rs:134 | buses 67, 7, 59, 61 first leave at their delays at 754018 |
| BusSchedule.Example779210 | 2020/src/day13/part2.rs:135 | buses 67, x, 7, 59, 61 first leave at their delays at 779210 |
| BusSchedule.Example1261476 | 2020/src/day13/part2.rs:136 | buses 67, 7, x, 59, 61 first leave at their delays at 1261476 |
| BusSchedule.Prime1789 | 2020/src/day13/part2.rs:137 | 1789 is prime |
| BusSchedule.Prime1889 | 2020/src/day13/part2.rs:137 | 1889 is prime |
| BusSchedule.LargeSampleIds | 2020/src/day13/part2.rs:137 | 1789, 37, 47 and 1889 are distinct primes whose product is 5876813119 |
| BusSchedule.Example1202161486 | 2020/src/day13/part2.rs:137 | buses 1789, 37, 47, 1889 first leave at their delays at 1202161486 |
| BusSchedule.Timestamp3417 | 2020/src/day13/part2.rs:133 | the remainders 0, 11 and 16 modulo 17, 13 and 19 give the timestamp 3417 |
| BusSchedule.SumTermsStep | 2020/src/day13/part2.rs:69-74 | one more bus with a multiplier adds its term to the sum of the buses before it |
| BusSchedule.Multiplier221 | 2020/src/day13/part2.rs:58-63 | the smallest multiplier of 221 onto 16 modulo 19 is 14 |
| BusSchedule.MultiplierSkips | 2020/src/day13/part2.rs:58-62 | the search passes over candidates that do not scale |
| CamelCards.CardRankInjective | 2023/day7/src/card.rs:1-18 | the derived order of cards ranks each card differently, joker lowest and ace highest |
| CamelCards.FromAscii | 2023/day7/src/card.rs:21-39 | `from_ascii` reads J as a jack, never gives a joker, and rejects any other character (the source panics) |
| CamelCards.FromAsciiCardChar | 2023/day7/src/card.rs:22-39 | reading the character of any card but the joker gives the card back |
| CamelCards.CardWithJokers | 2023/day7/src/card.rs:41-46 | `with_jokers` turns a jack into a joker and leaves every other card alone |
| CamelCards.FirstPosition | 2023/day7/src/hand.rs:20-25 | the position found holds the card and no earlier position does |
| CamelCards.Counts | 2023/day7/src/hand.rs:19-28 | the count array has five entries |
| CamelCards.FillCounts | 2023/day7/src/hand.rs:19-28 | the loop adds one at the first position of each card's kind, filling a new array with `Counts` |
| CamelCards.TallyMeaning | 2023/day7/src/hand.rs:26-28 | after n cards, position k holds the number of copies among them of its card when k is that card's first position, and 0 otherwise |
| CamelCards.CountsMeaning | 2023/day7/src/hand.rs:19-28 | each position of the filled array holds the number of copies of its card when it is the first of its kind, else 0 |
| CamelCards.Sum5 | 2023/day7/src/hand.rs:19 | the sum of five counts is the sum of the five entries |
| CamelCards.TallySum | 2023/day7/src/hand.rs:26-28 | the tallies of the first n cards over the five positions add up to n |
| CamelCards.CountsSum | 2023/day7/src/hand.rs:19-28 | the counts of a hand add up to its five cards |
| CamelCards.Insert | 2023/day7/src/hand.rs:29 | inserting into a sorted list keeps it sorted and adds exactly the new element |
| CamelCards.InsertAfter | 2023/day7/src/hand.rs:29 | the head of a sorted list stays in front of a larger element inserted into the tail |
| CamelCards.InsertSum | 2023/day7/src/hand.rs:29 | insertion adds the element to the sum |
| CamelCards.Sort | 2023/day7/src/hand.rs:29 | `sort` leaves the counts ascending and a permutation of what they were |
| CamelCards.SortSum | 2023/day7/src/hand.rs:29 | sorting keeps the sum of the counts |
| CamelCards.Reverse | 2023/day7/src/hand.rs:30 | `reverse` puts entry i at position n-1-i |
| CamelCards.ReverseKeeps | 2023/day7/src/hand.rs:29-30 | reversing keeps the counts and turns ascending into largest first |
| CamelCards.PatternFacts | 2023/day7/src/hand.rs:19-30 | the sorted and reversed counts are five numbers, largest first, adding up to five, and a permutation of the counts |
| CamelCards.SplitsOfFive | 2023/day7/src/hand.rs:32-41 | five counts largest first adding up to five are one of the seven patterns the match lists, so its unreachable arm is unreachable |
| CamelCards.ShapeTotal | 2023/day7/src/hand.rs:32-72 | every such pattern names a type, and a joker count that is 0 or one of its parts never reaches the second unreachable arm |
| CamelCards.ShapeByLead | 2023/day7/src/hand.rs:32-41 | the type a pattern names is fixed by its largest part: five, four, three (full house or three of a kind), two (two pair or one pair), or one |
| CamelCards.Upgrade | 2023/day7/src/hand.rs:49-72 | jokers never lower the type, and no jokers leave it as it is |
| CamelCards.JokersInPattern | 2023/day7/src/hand.rs:43-47 | a nonzero joker count is one of the counts of the pattern, since jokers are counted like any card |
| CamelCards.Classify | 2023/day7/src/hand.rs:18-73 | `hand_type` never reaches either `unreachable!`, and without jokers gives exactly the type the pattern of counts names |
| CamelCards.HandTypeOf | 2023/day7/src/hand.rs:18-73 | `hand_type` counts the cards, sorts the counts largest first, names the pattern and lets the jokers raise it, giving the type of the hand |
| CamelCards.MaxOf | 2023/day7/src/hand.rs:29-30 | the largest count is at least every count and is one of them |
| CamelCards.PatternLeads | 2023/day7/src/hand.rs:29-30 | the pattern starts with the number of copies of the most common card |
| CamelCards.TypeByLargestGroup | 2023/day7/src/hand.rs:32-41 | before jokers, five of a kind means five copies of one card, four of a kind four, and so on down to high card with no card repeated |
| CamelCards.JokerHand | 2023/day7/src/hand.rs:75-80 | the hand under the joker rule has each card read with `with_jokers` |
| CamelCards.WithJokers | 2023/day7/src/hand.rs:75-80 | `Hand::with_jokers` turns every jack into a joker in place, leaving the other cards |
| CamelCards.SameFirstPosition | 2023/day7/src/hand.rs:20-25 | two hands whose cards match at the same positions have the same first positions |
| CamelCards.SameTally | 2023/day7/src/hand.rs:26-28 | and the same tallies |
| CamelCards.SamePattern | 2023/day7/src/hand.rs:19-30 | hands grouped alike have the same pattern of counts |
| CamelCards.JokersNeverLower | 2023/day7/src/hand.rs:75-80 | reading a hand under the joker rule never lowers its type |
| CamelCards.CompareNat | 2023/day7/src/hand.rs:95-96 | the ordering of two numbers is Less or Equal exactly when the first is smaller or equal |
| CamelCards.CompareCardsEqual | 2023/day7/src/hand.rs:97 | the cards compare Equal exactly when they are the same, and swapping them flips the order |
| CamelCards.CompareCardsTransitive | 2023/day7/src/hand.rs:97 | comparing cards position by position is transitive |
| CamelCards.Compare | 2023/day7/src/hand.rs:93-105 | `cmp` says Equal exactly when `eq` does: the hands have the same cards |
| CamelCards.CompareFlip | 2023/day7/src/hand.rs:93-99 | swapping two hands flips their order |
| CamelCards.CompareTransitive | 2023/day7/src/hand.rs:93-99 | the order of hands, by type then by cards, is transitive |
| CamelCards.ParseCards | 2023/day7/src/hand.rs:83 | each character is read as the card it names; a bad character is an error |
| CamelCards.ParseHand | 2023/day7/src/hand.rs:82-88 | `parse` reads the first five characters, never yields a joker, and fails exactly on fewer than five characters or a bad one among them |
| CamelCards.ParseCardsText | 2023/day7/src/hand.rs:83 | reading the characters of cards without jokers gives the cards back |
| CamelCards.ParseHandText | 2023/day7/src/hand.rs:82-88 | writing a hand without jokers and parsing it gives the same hand |
| CamelCards.DescendingUnique | 2023/day7/src/hand.rs:29-30 | only one order of a multiset of counts is largest first |
| CamelCards.PatternIs | 2023/day7/src/hand.rs:29-30 | the pattern of a hand is its counts, largest first, whatever order they were counted in |
| CamelCards.TypeFromPattern | 2023/day7/src/hand.rs:18-41 | a hand without jokers has the type its counts, largest first, name |
| CamelCards.CountsAre | 2023/day7/src/hand.rs:19-28 | five numbers that are, position by position, the count of a card at its first position and 0 elsewhere are the hand's counts |
| CamelCards.TypeOfPattern | 2023/day7/src/hand.rs:18-73 | a hand's type is the type its pattern names, raised by its jokers |
| CamelCards.JokerTable | 2023/day7/src/hand.rs:49-72 | the table of what each joker count makes of each type |
| CamelCards.Hand32T3KSample | 2023/day7/src/hand.rs:144 | `32T3K` parses and is one pair, and one pair under the joker rule |
| CamelCards.HandKK677Sample | 2023/day7/src/hand.rs:145 | `KK677` parses and is two pair, and two pair under the joker rule |
| CamelCards.HandKTJJTSample | 2023/day7/src/hand.rs:146 | `KTJJT` parses and is two pair, and four of a kind under the joker rule |
| CamelCards.HandT55J5Sample | 2023/day7/src/hand.rs:147 | `T55J5` parses and is three of a kind, and four of a kind under the joker rule |
| CamelCards.HandQQQJASample | 2023/day7/src/hand.rs:148 | `QQQJA` parses and is three of a kind, and four of a kind under the joker rule |
| CamelCards.CardsLessAt | 2023/day7/src/hand.rs:97 | cards that agree before some position and are lower there compare Less |
| CamelCards.LessByType | 2023/day7/src/hand.rs:93-99 | a hand of lower type is ordered first |
| CamelCards.LessByCards | 2023/day7/src/hand.rs:93-99 | of two hands of one type, the one with lower cards is ordered first |
| CamelCards.HandCmpTypeSample | 2023/day7/src/hand.rs:118-126 | `32T3K` is ordered before `KK677` |
| CamelCards.HandCmpSample | 2023/day7/src/hand.rs:118-126 | `KTJJT` is ordered before `KK677` |
| CamelCards.HandCmpJokersSample | 2023/day7/src/hand.rs:129-139 | under the joker rule `QQQJA` is ordered before `KTJJT` |
| Passports.DigitChar | 2020/src/bin/day4.rs:85 | the character for a digit is a digit of its base |
| Passports.DigitValue | 2020/src/bin/day4.rs:85 | a digit character has a value below the radix, and that value's character is the digit itself |
| Passports.DigitCharValue | 2020/src/bin/day4.rs:85 | the value of the character for k is k |
| Passports.Fixed | 2020/src/bin/day4.rs:92-94 | the fixed-width text of a number has exactly the width asked for, all digits |
| Passports.ValueBound | 2020/src/bin/day4.rs:50-52 | w digits write a number below radix to the w |
| Passports.ValueFixed | 2020/src/bin/day4.rs:50-52 | writing a number in w digits keeps exactly its value modulo radix to the w |
| Passports.FixedValue | 2020/src/bin/day4.rs:92-94 | every string of digits is the fixed-width text of its own value, leading zeros included |
| Passports.ParseU32 | 2020/src/bin/day4.rs:51 | a string that parses as a `u32` is nonempty, is not a lone '+', and gives a value below 2 to the 32 |
| Passports.ParseFixed | 2020/src/bin/day4.rs:51 | the decimal text of a 32-bit number, padded to any width, parses back to it, with or without a leading '+' |
| Passports.ParseMeaning | 2020/src/bin/day4.rs:51 | a parsed number is the value of the digits after an optional '+' |
| Passports.FourDigitsMeaning | 2020/src/bin/day4.rs:50-52 | for four-digit bounds, `is_four_digits_in_range` accepts exactly the four-digit text of a number in range |
| Passports.PlusThreeDigits | 2020/src/bin/day4.rs:50-52 | four characters starting with '+' parse to less than 1000, so no four-digit range accepts them |
| Passports.ByrIsValid | 2020/src/bin/day4.rs:54-56 | a birth year is valid exactly when it is the four digits of a year from 1920 to 2002 |
| Passports.IyrIsValid | 2020/src/bin/day4.rs:58-60 | an issue year is valid exactly when it is the four digits of a year from 2010 to 2020 |
| Passports.EyrIsValid | 2020/src/bin/day4.rs:62-64 | an expiration year is valid exactly when it is the four digits of a year from 2020 to 2030 |
| Passports.HgtIsValid | 2020/src/bin/day4.rs:66-82 | a valid height is longer than two characters and ends in "cm" or "in" |
| Passports.HgtUnits | 2020/src/bin/day4.rs:68-78 | text followed by "cm" is valid exactly when it parses to 150 to 193, and followed by "in" exactly when it parses to 59 to 76 |
| Passports.HgtMeaning | 2020/src/bin/day4.rs:66-82 | a number written in any width, with or without '+', then a unit, is valid exactly when it is in that unit's range; without a unit it is never valid |
| Passports.NoUnit | 2020/src/bin/day4.rs:79 | text ending in a digit carries no unit and is not a valid height |
| Passports.HclIsValid | 2020/src/bin/day4.rs:84-86 | a hair colour is valid exactly when it is '#' followed by the six lower-case hexadecimal digits of a number below 16 to the 6 |
| Passports.HclMeaning | 2020/src/bin/day4.rs:84-86 | seven characters, the first '#' and the rest hexadecimal digits, are exactly '#' and the six-digit text of some number |
| Passports.EclIsValid | 2020/src/bin/day4.rs:88-90 | a valid eye colour is one of the seven three-letter codes |
| Passports.PidIsValid | 2020/src/bin/day4.rs:92-94 | a passport id is valid exactly when it is the nine digits of a number below 10 to the 9, leading zeros allowed |
| Passports.PidMeaning | 2020/src/bin/day4.rs:92-94 | nine decimal digits are exactly the nine-digit text of some number |
| Passports.IsValid1 | 2020/src/bin/day4.rs:42-44 | part one accepts a passport exactly when each of the seven required keys is present, whatever the values and whatever other keys |
| Passports.IsValid2 | 2020/src/bin/day4.rs:103-111 | the chain of seven `has_valid` checks accepts exactly when every required field is present and meets its own criterion |
| Passports.AllSevenMeaning | 2020/src/bin/day4.rs:103-111 | checking the fields one by one is checking each of them |
| Passports.HasValidByr | 2020/src/bin/day4.rs:104 | the birth year check is `has_valid` with the birth year criterion |
| Passports.HasValidIyr | 2020/src/bin/day4.rs:105 | the issue year check is `has_valid` with the issue year criterion |
| Passports.HasValidEyr | 2020/src/bin/day4.rs:106 | the expiration year check is `has_valid` with the expiration year criterion |
| Passports.HasValidHgt | 2020/src/bin/day4.rs:107 | the height check is `has_valid` with the height criterion |
| Passports.HasValidHcl | 2020/src/bin/day4.rs:108 | the hair colour check is `has_valid` with the hair colour criterion |
| Passports.HasValidEcl | 2020/src/bin/day4.rs:109 | the eye colour check is `has_valid` with the eye colour criterion |
| Passports.HasValidPid | 2020/src/bin/day4.rs:110 | the passport id check is `has_valid` with the passport id criterion |
| Passports.Valid2HasKeys | 2020/src/bin/day4.rs:42-44 | a passport valid under the field criteria has every required key |
| Passports.CountValid | 2020/src/bin/day4.rs:46-48 | the number of passports accepted is at most the number of passports, equals it exactly when every passport is accepted, and is 0 exactly when none is |
| Passports.CountStricter | 2020/src/bin/day4.rs:46-48 | a criterion that accepts only passports another accepts never counts more |
| Passports.SolvePart1 | 2020/src/bin/day4.rs:46-48 | part one counts at most every passport, and counts every passport exactly when each has all seven required keys |
| Passports.SolvePart2 | 2020/src/bin/day4.rs:113-115 | part two never counts more passports than part one, and counts every passport exactly when each has every field present and valid |
| Passports.YearExamples | 2020/src/bin/day4.rs:130-131 | "2002" is a valid birth year and "2003" is not |
| Passports.HeightExamples | 2020/src/bin/day4.rs:133-136 | "60in" and "190cm" are valid heights; "190in" and "190" are not |
| Passports.SixtyInches | 2020/src/bin/day4.rs:133 | "60in" is a valid height |
| Passports.NinetyHeights | 2020/src/bin/day4.rs:134-136 | "190cm" is a valid height; "190in" and "190" are not |
| Passports.HairExamples | 2020/src/bin/day4.rs:138-140 | "#123abc" is a valid hair colour; "#123abz" and "123abc" are not |
| Passports.EyeExamples | 2020/src/bin/day4.rs:142-143 | "brn" is a valid eye colour and "wat" is not |
| Passports.IdExamples | 2020/src/bin/day4.rs:145-146 | "000000001" is a valid passport id and "0123456789" is not |
| Snailfish.FromByte | 2021/src/bin/day18.rs:32-43 | a bracket or a decimal digit is a symbol, a comma is skipped, and any other byte is an error |
| Snailfish.Decimal | 2021/src/bin/day18.rs:51 | a scalar from 0 to 9 is displayed as its single digit character |
| Snailfish.ParseSymbols | 2021/src/bin/day18.rs:275-284 | reading a number fails exactly when some byte of its text is not a bracket, digit or comma |
| Snailfish.ParseNumber | 2021/src/bin/day18.rs:275-284 | the byte-by-byte reader returns what the reference reading returns, stopping at the first bad byte |
| Snailfish.ParseStops | 2021/src/bin/day18.rs:279 | once a bad byte has been read, the text after it does not change the outcome |
| Snailfish.Display | 2021/src/bin/day18.rs:263-270 | the text of a number holds only brackets and digits, with no commas, and has one byte per symbol when every scalar is a single digit |
| Snailfish.ParseDisplay | 2021/src/bin/day18.rs:263-284 | reading back the displayed text of a number whose scalars are single digits gives the same symbols |
| Snailfish.SymbolByte | 2021/src/bin/day18.rs:46-54 | a bracket or single-digit scalar displays as one byte that reads back as the same symbol |
| Snailfish.Flatten | 2021/src/bin/day18.rs:225-233 | the symbols of a number as a tree are never empty |
| Snailfish.NetSnoc | 2021/src/bin/day18.rs:81-92 | one more symbol changes the nesting by +1 for an open, -1 for a close and 0 for a scalar |
| Snailfish.NetConcat | 2021/src/bin/day18.rs:81-92 | the nesting after two runs of symbols is the sum of their nestings |
| Snailfish.PeakNet | 2021/src/bin/day18.rs:79-94 | the deepest nesting is never negative and never below the final nesting |
| Snailfish.PeakAtLeast | 2021/src/bin/day18.rs:79-94 | the deepest nesting is at least the nesting after any prefix |
| Snailfish.PeakConcat | 2021/src/bin/day18.rs:79-94 | the deepest nesting of two runs is the deeper of the first run's peak and the first run's nesting plus the second run's peak |
| Snailfish.TreeShape | 2021/src/bin/day18.rs:225-233 | the symbols of a number balance, every non-empty proper prefix is still open, and it starts with an open and ends with a close exactly when it is a pair |
| Snailfish.UnitPrefix | 2021/src/bin/day18.rs:225-233 | no prefix of a number's symbols closes more than it opened |
| Snailfish.PairPrefixLeft | 2021/src/bin/day18.rs:236-241 | inside the left half of a pair the nesting stays positive |
| Snailfish.PairPrefixRight | 2021/src/bin/day18.rs:236-241 | inside the right half of a pair the nesting stays positive |
| Snailfish.PairShape | 2021/src/bin/day18.rs:236-241 | a pair of two numbers is itself a well-nested number |
| Snailfish.TreePeak | 2021/src/bin/day18.rs:79-94 | the deepest nesting of a number's symbols is the depth of its tree |
| Snailfish.PairPeak | 2021/src/bin/day18.rs:79-94 | a pair nests one deeper than the deeper of its halves |
| Snailfish.OpenPeak | 2021/src/bin/day18.rs:83-86 | an open in front raises every nesting by one |
| Snailfish.ClosePeak | 2021/src/bin/day18.rs:87-89 | a close at the end leaves the deepest nesting as it was |
| Snailfish.PrefixNonNegative | 2021/src/bin/day18.rs:79-94 | no prefix of a number's symbols has a negative nesting |
| Snailfish.NoTreeIfNegative | 2021/src/bin/day18.rs:87-89 | symbols with a prefix that closes more than it opened are not a number |
| Snailfish.PairHit | 2021/src/bin/day18.rs:61-73 | in a pair, the scan that looks for nesting one after a non-open first finds it where the left half ends |
| Snailfish.LeftPrefix | 2021/src/bin/day18.rs:61-73 | inside the left half of a pair, the nesting is one more than within the left half alone |
| Snailfish.MagnitudeSplit | 2021/src/bin/day18.rs:68-72 | where the scan stops, the symbols before and after are exactly the pair's left and right halves |
| Snailfish.NoTreeIfNoHit | 2021/src/bin/day18.rs:76 | an open-started sequence where the scan never stops is not a number |
| Snailfish.Magnitude | 2021/src/bin/day18.rs:56-77 | for every number, the magnitude is that of its tree: a scalar is worth itself and a pair three times its left plus twice its right; the empty sequence is an error |
| Snailfish.MaxDepth | 2021/src/bin/day18.rs:79-94 | the result is the deepest nesting of any prefix, and it is an error exactly when some prefix closes more than it opened |
| Snailfish.MaxDepthOfTree | 2021/src/bin/day18.rs:79-94 | for a number, the deepest nesting is the depth of its tree and no prefix is negative |
| Snailfish.LastScalarIndex | 2021/src/bin/day18.rs:115-121 | the position found holds a scalar and no later position does; none means there is no scalar |
| Snailfish.FirstScalarIndex | 2021/src/bin/day18.rs:134-138 | the position found holds a scalar and no earlier position does; none means there is no scalar |
| Snailfish.AddToLastScalar | 2021/src/bin/day18.rs:110-124 | adding a carry to the last scalar keeps the number's length |
| Snailfish.AddToFirstScalar | 2021/src/bin/day18.rs:134-140 | adding a carry to the first scalar keeps the number's length |
| Snailfish.SplitValue | 2021/src/bin/day18.rs:171-180 | a split scalar's halves add up to it and the right one is the left one or one more |
| Snailfish.ExplodeAt | 2021/src/bin/day18.rs:143-147 | replacing an exploding pair by 0 shortens the number by three symbols |
| Snailfish.FirstDeepOpen | 2021/src/bin/day18.rs:182-192 | the position found is an open at nesting four with none before it; none means no such open exists |
| Snailfish.FirstBig | 2021/src/bin/day18.rs:205-213 | the position found is a scalar of ten or more with none before it; none means every scalar is below ten |
| Snailfish.DeepOpenExists | 2021/src/bin/day18.rs:153 | a number nested deeper than four has an open that starts the fifth level |
| Snailfish.ReduceOnceSpec | 2021/src/bin/day18.rs:166-222 | a shorter result only comes from a number nested deeper than four, a longer one only from one nested at most four deep, and an explosion removes exactly three symbols |
| Snailfish.TreeNoBig | 2021/src/bin/day18.rs:205-213 | a number has no scalar of ten or more exactly when all its scalars are below ten |
| Snailfish.NoBigFirst | 2021/src/bin/day18.rs:205-213 | the search for a big scalar fails exactly when no scalar is big |
| Snailfish.NoBigPair | 2021/src/bin/day18.rs:236-241 | a pair has no big scalar exactly when neither half does |
| Snailfish.ReducedExactly | 2021/src/bin/day18.rs:248-256 | a reduction step leaves a number unchanged exactly when it is a pair nested at most four deep with every scalar below ten |
| Snailfish.ReducerOnce.constructor | 2021/src/bin/day18.rs:149-156 | a new reducer has the whole number left, nothing built and depth zero |
| Snailfish.ReducerOnce.Pop | 2021/src/bin/day18.rs:158-164 | takes the first remaining symbol, and an empty number is an incomplete-number error |
| Snailfish.ReducerOnce.ExplodeLeft | 2021/src/bin/day18.rs:110-124 | the left scalar of the exploding pair is added to the last scalar built; a missing or non-scalar carry is an error |
| Snailfish.ReducerOnce.ExplodeRight | 2021/src/bin/day18.rs:126-141 | after the right scalar and the close, the rest is copied with the right scalar added to its first scalar; every malformed case is an error |
| Snailfish.ReducerOnce.CopyRest | 2021/src/bin/day18.rs:134-140 | the remaining symbols are copied with the carry added to the first scalar met |
| Snailfish.ReducerOnce.Explode | 2021/src/bin/day18.rs:143-147 | the result built is the reference explosion of the pair, and it fails exactly when the pair is not two scalars and a close |
| Snailfish.ReducerOnce.Split | 2021/src/bin/day18.rs:171-180 | a split scalar becomes a pair of its halves followed by the rest of the number |
| Snailfish.ReducerOnce.StepOpen | 2021/src/bin/day18.rs:182-192 | below depth four an open is copied and nests deeper; at depth four the pair explodes and the step is done |
| Snailfish.ReducerOnce.StepClose | 2021/src/bin/day18.rs:194-203 | a close is copied and leaves one level, finishing when the outermost pair closes; a close at depth zero is an error |
| Snailfish.ReducerOnce.StepValue | 2021/src/bin/day18.rs:205-213 | a scalar is copied unless it is ten or more in a number that will not explode, in which case it splits and the step is done |
| Snailfish.ReducerOnce.Step | 2021/src/bin/day18.rs:215-222 | the next symbol is dispatched to the open, close or scalar step, and an empty number is an error |
| Snailfish.ReducerOnce.ReduceOnce | 2021/src/bin/day18.rs:166-169 | for every number, stepping until done gives the reference reduction step: the leftmost deep pair explodes, else the leftmost big scalar splits, else nothing changes |
| Snailfish.ReducerOnce.Advance | 2021/src/bin/day18.rs:167 | each step either decides the outcome of the reduction or copies one more symbol unchanged |
| Snailfish.MidwayNext | 2021/src/bin/day18.rs:182-213 | copying an open below depth four, a close inside a pair, or a scalar that will not split keeps the reducer on course |
| Snailfish.AddFirstSnoc | 2021/src/bin/day18.rs:134-140 | adding a carry to the first scalar of a longer run extends the copy symbol by symbol |
| Snailfish.FirstScalarUnique | 2021/src/bin/day18.rs:134-138 | a scalar with none before it is the first scalar |
| Snailfish.ScannedStep | 2021/src/bin/day18.rs:182-213 | the scan extends past an open below depth four, a close inside a pair, and a scalar that does not split |
| Snailfish.ExitIncomplete | 2021/src/bin/day18.rs:161 | running out of symbols before the step finishes is an incomplete-number error, and no number does that |
| Snailfish.ExitBadExplosion | 2021/src/bin/day18.rs:126-133 | an exploding pair that is not two scalars and a close is an error, both for the reducer and the reference |
| Snailfish.ExitUnbalanced | 2021/src/bin/day18.rs:195 | a close at depth zero is an unbalanced-number error |
| Snailfish.FirstDeepOpenAt | 2021/src/bin/day18.rs:182-192 | the first open at depth four is the one the reference explodes, and the number is then deeper than four |
| Snailfish.ExitExploded | 2021/src/bin/day18.rs:143-147 | the reducer's explosion and the reference's explosion of the first deep pair agree |
| Snailfish.ExitSplit | 2021/src/bin/day18.rs:171-180 | with nothing to explode, the reducer and the reference both split the first big scalar |
| Snailfish.FirstBigAt | 2021/src/bin/day18.rs:205-213 | a big scalar with none before it is the first big scalar |
| Snailfish.ExitClosed | 2021/src/bin/day18.rs:194-203 | closing the outermost pair with nothing changed returns the number itself, both for the reducer and the reference |
| Snailfish.ClosedIsWhole | 2021/src/bin/day18.rs:198-202 | in a number, only the last symbol brings the nesting back to zero |
| Snailfish.ShallowWithoutDeepOpen | 2021/src/bin/day18.rs:153 | without an open at nesting four, no prefix is nested deeper than four |
| Snailfish.ReduceNumberOnce | 2021/src/bin/day18.rs:258-260 | one reduction step of a number computes the reference step, with the explosive flag taken from its deepest nesting |
| Snailfish.Reduce | 2021/src/bin/day18.rs:248-256 | a reduced number comes back unchanged, and every result is left unchanged by a further step |
| Snailfish.Add | 2021/src/bin/day18.rs:236-242 | the sum of two numbers is their pair when that is already reduced, and every sum is a fixed point of reduction |
| Snailfish.Sum | 2021/src/bin/day18.rs:303-309 | an empty homework is an error, a single number is its own sum, and a longer sum is reduced |
| Snailfish.SolvePart1 | 2021/src/bin/day18.rs:315-317 | an empty homework is an error and a single number's answer is its own magnitude |
| Snailfish.SolvePart2 | 2021/src/bin/day18.rs:334-343 | the answer is zero for fewer than two numbers and otherwise the largest of the magnitudes of the sums of every ordered pair of different numbers |
| Snailfish.ExplodeLeftmost | 2021/src/bin/day18.rs:364 | [[[[[9,8],1],2],3],4] reduces in one step to [[[[0,9],2],3],4] |
| Snailfish.LeftmostShape | 2021/src/bin/day18.rs:364 | the symbols of [[[[[9,8],1],2],3],4] begin with five opens and its depth is five |
| Snailfish.LeftmostDeep | 2021/src/bin/day18.rs:364 | in [[[[[9,8],1],2],3],4] the fifth symbol is the first deep open, followed by 9, 8 and a close |
| Snailfish.ExplosionStep | 2021/src/bin/day18.rs:182-192 | a number deeper than four with a well-formed first deep pair reduces by exploding that pair |
| Snailfish.ExplodeLeftmostPieces | 2021/src/bin/day18.rs:364 | exploding [9,8] after four opens gives the symbols of [[[[0,9],2],3],4] |
| Snailfish.LeftmostResult | 2021/src/bin/day18.rs:364 | the symbols of [[[[0,9],2],3],4] written out |
| Snailfish.LeadingOpens | 2021/src/bin/day18.rs:83-86 | after a run of n opens the nesting is n at every point |
| Snailfish.FirstDeepByNets | 2021/src/bin/day18.rs:182-192 | when the running nesting of a number first stands at four just before an open, that open starts the first pair to explode and the number is nested deeper than four |
| Snailfish.ShallowByNets | 2021/src/bin/day18.rs:150-155 | when the running nesting never passes four, the number is nested no deeper than four |
| Snailfish.ExplodesTo | 2021/src/bin/day18.rs:110-147 | a number made of `pre`, a pair [a,b] and `post`, where that pair is the first nested inside four others, reduces to `pre` with a added to its last scalar, then 0, then `post` with b added to its first scalar |
| Snailfish.PairCut | 2021/src/bin/day18.rs:143-147 | cutting a number at the open of its pair [a,b] leaves `pre` before it and a, b and a close after it, and exploding there adds a and b to the neighbouring scalars |
| Snailfish.SplitsTo | 2021/src/bin/day18.rs:171-180 | a number made of `pre`, a scalar n of ten or more and `post`, nested no deeper than four and with no scalar of ten or more in `pre`, reduces to `pre`, the halves of n and `post` |
| Snailfish.LastScalarAt | 2021/src/bin/day18.rs:110-124 | adding to the last scalar changes only the scalar at the given position when none follows it |
| Snailfish.FirstScalarAt | 2021/src/bin/day18.rs:126-141 | adding to the first scalar changes only the scalar at the given position when none precedes it |
| Snailfish.NoScalar | 2021/src/bin/day18.rs:110-141 | with no scalar to carry into, the carried value is dropped |
| Snailfish.ExplodeRightmost | 2021/src/bin/day18.rs:365 | [7,[6,[5,[4,[3,2]]]]] reduces in one step to [7,[6,[5,[7,0]]]] |
| Snailfish.ExplodeInner | 2021/src/bin/day18.rs:366 | [[6,[5,[4,[3,2]]]],1] reduces in one step to [[6,[5,[7,0]]],3] |
| Snailfish.ExplodeFirstOfTwo | 2021/src/bin/day18.rs:367-370 | [[3,[2,[1,[7,3]]]],[6,[5,[4,[3,2]]]]] reduces in one step to [[3,[2,[8,0]]],[9,[5,[4,[3,2]]]]] |
| Snailfish.ExplodeSecondOfTwo | 2021/src/bin/day18.rs:371-374 | [[3,[2,[8,0]]],[9,[5,[4,[3,2]]]]] reduces in one step to [[3,[2,[8,0]]],[9,[5,[7,0]]]] |
| Snailfish.ReduceAfterAddition | 2021/src/bin/day18.rs:384-388 | [[[[[4,3],4],4],[7,[[8,4],9]]],[1,1]] reduces in one step, by an explosion, to [[[[0,7],4],[7,[[8,4],9]]],[1,1]] |
| Snailfish.ReduceSecond | 2021/src/bin/day18.rs:388-389 | [[[[0,7],4],[7,[[8,4],9]]],[1,1]] reduces in one step, by an explosion, to [[[[0,7],4],[15,[0,13]]],[1,1]] |
| Snailfish.ReduceThird | 2021/src/bin/day18.rs:389-390 | [[[[0,7],4],[15,[0,13]]],[1,1]] reduces in one step, by splitting 15, to [[[[0,7],4],[[7,8],[0,13]]],[1,1]] |
| Snailfish.ReduceFourth | 2021/src/bin/day18.rs:390-391 | [[[[0,7],4],[[7,8],[0,13]]],[1,1]] reduces in one step, by splitting 13, to [[[[0,7],4],[[7,8],[0,[6,7]]]],[1,1]] |
| Snailfish.ReduceFifth | 2021/src/bin/day18.rs:391-392 | [[[[0,7],4],[[7,8],[0,[6,7]]]],[1,1]] reduces in one step, by an explosion, to [[[[0,7],4],[[7,8],[6,0]]],[8,1]] |
| Polymer.Pairs | 2021/src/bin/day14.rs:49-56 | a non-empty chain of n bytes has n - 1 adjacent pairs |
| Polymer.Step | 2021/src/bin/day14.rs:58-70 | one round of insertions keeps the chain's first and last bytes |
| Polymer.StepLength | 2021/src/bin/day14.rs:61-64 | each round lengthens the chain by one byte per pair that has a rule |
| Polymer.Grow | 2021/src/bin/day14.rs:72-76 | after any number of rounds a non-empty chain is still non-empty and ends with the same byte |
| Polymer.ScaledSingle | 2021/src/bin/day14.rs:63-66 | adding one pair n times gives a count of n for it |
| Polymer.ScaledUnion | 2021/src/bin/day14.rs:63-64 | adding two pairs n times each is adding each of them n times |
| Polymer.FlatMapOne | 2021/src/bin/day14.rs:60 | the rewritten counts do not depend on which entry is visited first |
| Polymer.Swap | 2021/src/bin/day14.rs:60 | adding counts in another order gives the same counts |
| Polymer.FlatMapAdd | 2021/src/bin/day14.rs:60-68 | rewriting two sets of counts together is rewriting each and adding the results |
| Polymer.FlatMapSingle | 2021/src/bin/day14.rs:60-68 | rewriting a single pair gives that pair's image |
| Polymer.FlatMapEntry | 2021/src/bin/day14.rs:60-68 | all the copies of one pair can be rewritten at once, as one map entry is |
| Polymer.PairsSnoc | 2021/src/bin/day14.rs:51-54 | one more byte adds exactly the pair it forms with the byte before it |
| Polymer.CountPairs | 2021/src/bin/day14.rs:49-56 | the counts are the chain's adjacent pairs and number one fewer than its bytes; an empty chain, which the source cannot count, is none |
| Polymer.ExpandEntry | 2021/src/bin/day14.rs:60-68 | rewriting the counts is rewriting one entry's copies and then the rest |
| Polymer.Bump | 2021/src/bin/day14.rs:66 | adding n to one entry adds n copies of that pair |
| Polymer.BumpTwo | 2021/src/bin/day14.rs:63-64 | adding n to two entries in turn adds n copies of each |
| Polymer.Shift | 2021/src/bin/day14.rs:60-68 | moving an entry's share from the counts still to visit into the result keeps the total |
| Polymer.AddEntry | 2021/src/bin/day14.rs:61-67 | an entry with a rule adds its count to the pairs left-inserted and inserted-right, and one without a rule keeps its count |
| Polymer.Update | 2021/src/bin/day14.rs:58-70 | the new counts are every entry rewritten by its rule and added up |
| Polymer.ExpandTotal | 2021/src/bin/day14.rs:61-64 | each round adds one pair per counted pair that has a rule |
| Polymer.PairsInserted | 2021/src/bin/day14.rs:62-64 | a pair with a byte inserted becomes its left-inserted and inserted-right pairs |
| Polymer.StepPairs | 2021/src/bin/day14.rs:58-70 | the pairs of a grown chain are its first pair's image and the pairs of the rest grown |
| Polymer.PairsStep | 2021/src/bin/day14.rs:58-70 | rewriting the pair counts gives the pair counts of the chain after one round of insertions |
| Polymer.PairsGrow | 2021/src/bin/day14.rs:73-76 | after n rounds of rewriting, the counts are those of the chain grown n times |
| Polymer.MatchesAreMatched | 2021/src/bin/day14.rs:61-64 | the pairs of the chain with a rule number as many as the counted pairs with a rule |
| Polymer.FirstBytesCons | 2021/src/bin/day14.rs:79-81 | the first bytes of a chain's pairs are its first byte and the first bytes of the rest |
| Polymer.Regroup | 2021/src/bin/day14.rs:79-82 | adding the first bytes and the last byte in either grouping gives the same counts |
| Polymer.FirstBytesPairs | 2021/src/bin/day14.rs:78-82 | the first byte of every pair plus the last byte of the chain count every byte of the chain |
| Polymer.MostFrom | 2021/src/bin/day14.rs:83 | the largest byte count is at least every byte's count and is the count of some byte |
| Polymer.FewestFrom | 2021/src/bin/day14.rs:83 | the smallest count of the bytes present is at most every present byte's count and is the count of some present byte; none when no byte is present |
| Polymer.Spread | 2021/src/bin/day14.rs:83 | the difference between the most and the least common byte's counts, which no two present bytes exceed |
| Polymer.CountFirstBytes | 2021/src/bin/day14.rs:78-81 | the byte counts add up each pair's count under its first byte |
| Polymer.Solve | 2021/src/bin/day14.rs:72-84 | the answer is the spread of the byte counts of the chain grown n times; an empty chain is none |
| Packets.Pow2 | 2021/src/bin/day16.rs:48-56 | a power of two is at least one |
| Packets.BitsValue | 2021/src/bin/day16.rs:48-56 | a number read from n bits, most significant first, is below 2 to the n |
| Packets.ToBits | 2021/src/bin/day16.rs:48-56 | writing a number in n bits gives n bits, which read back as the number when it fits |
| Packets.ToBitsOfValue | 2021/src/bin/day16.rs:48-56 | writing the value of a run of bits in as many bits gives the same bits back |
| Packets.BitsConcat | 2021/src/bin/day16.rs:51 | reading two runs of bits in turn shifts the first run's value past the second's |
| Packets.Regroup | 2021/src/bin/day16.rs:51 | shifting in one more bit regroups as doubling the value and adding the bit |
| Packets.Concat4 | 2021/src/bin/day16.rs:165 | four more bits multiply the value by sixteen and add their own value |
| Packets.DigitSum | 2021/src/bin/day16.rs:36-38 | a digit below sixteen is the sum of its four bits weighted 8, 4, 2 and 1 |
| Packets.FourBits | 2021/src/bin/day16.rs:36-38 | four bits are worth 8, 4, 2 and 1 times their bits |
| Packets.HexDigit | 2021/src/bin/day16.rs:35 | a hexadecimal digit, in either case, is worth less than sixteen |
| Packets.NibbleBits | 2021/src/bin/day16.rs:36-38 | each hexadecimal digit yields four bits |
| Packets.NibbleValue | 2021/src/bin/day16.rs:36-38 | the four bits of a digit, most significant first, read back as the digit |
| Packets.NibbleBit | 2021/src/bin/day16.rs:37 | bit k of a digit's four bits is the digit shifted right by 3 - k, masked to one bit |
| Packets.HexBits | 2021/src/bin/day16.rs:32-41 | a text of n hexadecimal digits gives 4n bits, and the text is an error exactly when some character is not a hexadecimal digit |
| Packets.HexValue | 2021/src/bin/day16.rs:32-41 | the bits of a hexadecimal text read back as the number the text writes |
| Packets.HexSnoc | 2021/src/bin/day16.rs:34-39 | one more digit appends its four bits to those of the text before it |
| Packets.ParseHex | 2021/src/bin/day16.rs:32-41 | the digit-by-digit loop gives the reference bits, or the error at the first bad digit |
| Packets.AppendNibble | 2021/src/bin/day16.rs:36-38 | the inner loop appends the digit's four bits, most significant first |
| Packets.HexStops | 2021/src/bin/day16.rs:35 | after a bad digit, the text that follows does not change the error |
| Packets.ReadBits | 2021/src/bin/day16.rs:44-57 | reading n bits fails exactly when fewer than n remain, and otherwise gives their value and what is left after them |
| Packets.ReadToBits | 2021/src/bin/day16.rs:44-57 | reading n bits back from a number written in n bits gives that number and the bits after it |
| Packets.BitStream.constructor | 2021/src/bin/day16.rs:128 | a new stream holds the given bits |
| Packets.BitStream.Next | 2021/src/bin/day16.rs:50 | the next bit is the first remaining one, which is consumed; none when the stream is empty |
| Packets.TryParseBits | 2021/src/bin/day16.rs:44-57 | the value of the next n bits, most significant first, with those bits consumed; none, with the stream drained, when they run out |
| Packets.ParseBits | 2021/src/bin/day16.rs:59-64 | the value of the next n bits, or an error asking for more bits |
| Packets.TakeBits | 2021/src/bin/day16.rs:66-75 | the next n bits themselves, consumed, or an error when fewer remain |
| Packets.LiteralFrom | 2021/src/bin/day16.rs:161-167 | decoding groups always consumes bits |
| Packets.DecodeLiteral | 2021/src/bin/day16.rs:157-168 | decoding a literal always consumes bits |
| Packets.DecodePacket | 2021/src/bin/day16.rs:194-240 | decoding a packet always consumes bits |
| Packets.DecodeOperands | 2021/src/bin/day16.rs:170-189 | decoding operands always consumes bits |
| Packets.DecodeCount | 2021/src/bin/day16.rs:180-187 | decoding a counted run of packets never consumes more than there is |
| Packets.DecodePackets | 2021/src/bin/day16.rs:242-251 | decoding the packets of a sized field uses up the whole field |
| Packets.Min | 2021/src/bin/day16.rs:213-216 | the minimum of non-empty operands is one of them and no larger than any |
| Packets.Max | 2021/src/bin/day16.rs:217-220 | the maximum of non-empty operands is one of them and no smaller than any |
| Packets.Operate | 2021/src/bin/day16.rs:203-239 | minimum and maximum need operands; the comparisons need exactly two and give 1 exactly when greater, less or equal holds, else 0; types 4 and above 7 are errors; these are the only errors |
| Packets.PrefixedNothing | 2021/src/bin/day16.rs:182-187 | prepending no values leaves a decoded list as it was |
| Packets.PrefixedTwice | 2021/src/bin/day16.rs:182-187 | prepending two runs of values in turn is prepending them joined |
| Packets.EvalLiteral | 2021/src/bin/day16.rs:157-168 | the literal's value and the bits left agree with the reference decoding, or it fails with the same error |
| Packets.EvalPacket | 2021/src/bin/day16.rs:194-240 | the packet's value and the bits left agree with the reference decoding, or it fails with the same error |
| Packets.EvalOperands | 2021/src/bin/day16.rs:170-189 | the operands and the bits left agree with the reference decoding, or it fails with the same error |
| Packets.EvalCount | 2021/src/bin/day16.rs:180-187 | the counted operands and the bits left agree with the reference decoding, or it fails with the same error |
| Packets.EvalPackets | 2021/src/bin/day16.rs:242-251 | the packets of a sized field and the bits left agree with the reference decoding, or it fails with the same error |
| Packets.Solve | 2021/src/bin/day16.rs:253-257 | the answer is the reference value of the outermost packet after its version |
| Packets.ReadGroup | 2021/src/bin/day16.rs:161-165 | a five-bit group reads as its continuation bit times sixteen plus its four-bit digit |
| Packets.LiteralStep | 2021/src/bin/day16.rs:163-166 | a group with its leading bit set continues the literal and one without ends it |
| Packets.DecodeGroups | 2021/src/bin/day16.rs:157-168 | the encoded groups of a literal decode to their value, base sixteen, leaving what follows |
| Packets.DecodeBody | 2021/src/bin/day16.rs:194-240 | decoding the encoding of any well-formed packet gives its value and leaves what follows |
| Packets.DecodeLiteralBody | 2021/src/bin/day16.rs:199-201 | decoding an encoded literal gives its groups' value |
| Packets.DecodeOperatorBody | 2021/src/bin/day16.rs:202-239 | decoding an encoded operator applies its type to its operands' values |
| Packets.DecodeEncodeOperands | 2021/src/bin/day16.rs:170-189 | encoded operands, by count or by size, decode to their values |
| Packets.OperandsByCount | 2021/src/bin/day16.rs:180-187 | operands announced by an 11-bit count decode to their values |
| Packets.OperandsBySize | 2021/src/bin/day16.rs:174-178 | operands announced by a 15-bit size decode to their values |
| Packets.DecodeSized | 2021/src/bin/day16.rs:174-178 | a sized field is decoded on its own bits only, and what follows it is left |
| Packets.ValuesCons | 2021/src/bin/day16.rs:182-187 | the values of a run of packets are the first one's value followed by the rest's |
| Packets.SplitFirst | 2021/src/bin/day16.rs:184 | the first three bits of a run of packets are the first packet's version |
| Packets.Assoc | 2021/src/bin/day16.rs:182-187 | regrouping joined bits gives the same bits |
| Packets.Regroup3 | 2021/src/bin/day16.rs:182-187 | regrouping four joined runs of bits gives the same bits |
| Packets.WellFormedTail | 2021/src/bin/day16.rs:182-187 | the packets after the first of a well-formed run are well formed |
| Packets.DecodeCountEncode | 2021/src/bin/day16.rs:180-187 | the encodings of n packets, decoded n at a time, give their values and leave what follows |
| Packets.DecodePacketsEncode | 2021/src/bin/day16.rs:242-251 | the encodings of a run of packets, decoded to the end, give their values |
| Packets.SolveEncode | 2021/src/bin/day16.rs:253-257 | the answer for the encoding of any well-formed packet, padded with any bits, is that packet's value |
| Packets.ReadVersion | 2021/src/bin/day16.rs:255 | the first three bits of an encoded packet read back as its version, leaving the rest of its bits |
| Packets.SolveLifted | 2021/src/bin/day16.rs:253-257 | once the version is read, the answer is whatever evaluating the packet after it gives |
| PacketText.BitString | 2021/src/bin/day16.rs:23-26 | `bit_string` shows one character per bit, '1' exactly for a set bit and '0' otherwise |
| PacketText.BitStringIs | 2021/src/bin/day16.rs:23-26 | the binary text of the same length and value as some bits is their `bit_string` |
| PacketText.BitsInjective | 2021/src/bin/day16.rs:23-26 | bits of one length and one value are the same bits |
| PacketText.BinaryJoin | 2021/src/bin/day16.rs:23-26 | binary text followed by more binary text spells the first number shifted past the second plus the second |
| PacketText.HexJoin | 2021/src/bin/day16.rs:32-41 | hexadecimal text followed by more spells the first number times 16 to the length of the second, plus the second, and every digit stays valid |
| PacketText.HexText | 2021/src/bin/day16.rs:32-41 | `from_str` on valid hexadecimal text of known value succeeds with four bits per digit spelling that value |
| PacketText.ParseLiteralSample | 2021/src/bin/day16.rs:289 | `D2FE28` parses, and its `bit_string` is `110100101111111000101000` |
| PacketText.ParseByLengthSample | 2021/src/bin/day16.rs:290-293 | `38006F45291200` parses, and its `bit_string` is the 56 characters the test gives |
| PacketText.ParseByCountSample | 2021/src/bin/day16.rs:294-297 | `EE00D40C823060` parses, and its `bit_string` is the 56 characters the test gives |
| PacketText.ParseNestedSample | 2021/src/bin/day16.rs:298-302 | `620080001611562C8802118E34` parses, and its `bit_string` is the 104 characters the test gives |
| PacketSamples.SolvesPadded | 2021/src/bin/day16.rs:253-257 | bits that spell a well-formed packet followed by clear padding bits solve to that packet's value |
| PacketSamples.SingleGroup | 2021/src/bin/day16.rs:157-168 | a literal of one group is well formed, is worth its group, and is written in 11 bits |
| PacketSamples.OperatorCode | 2021/src/bin/day16.rs:170-239 | an operator over known operands is well formed, applies its type to their values, and is written as head, size field and operands |
| PacketSamples.OperatorLayout | 2021/src/bin/day16.rs:170-189 | an operator packet is written as version, type ID, length flag, size field and operands, in that order |
| PacketSamples.PairOperator | 2021/src/bin/day16.rs:170-239 | an operator over two packets: well formed, its value, its length and the number its bits spell |
| PacketSamples.TripleOperator | 2021/src/bin/day16.rs:170-239 | an operator over three packets: well formed, its value, its length and the number its bits spell |
| PacketSamples.PairFolds | 2021/src/bin/day16.rs:203-220 | sum, product, minimum and maximum of two operands |
| PacketSamples.TripleFolds | 2021/src/bin/day16.rs:203-220 | sum, product, minimum and maximum of three operands |
| PacketSamples.SumSample | 2021/src/bin/day16.rs:266 | `C200B40A82` solves to 3 |
| PacketSamples.ProductSample | 2021/src/bin/day16.rs:267 | `04005AC33890` solves to 54 |
| PacketSamples.MinimumSample | 2021/src/bin/day16.rs:268 | `880086C3E88112` solves to 7 |
| PacketSamples.MaximumSample | 2021/src/bin/day16.rs:269 | `CE00C43D881120` solves to 9 |
| PacketSamples.LessSample | 2021/src/bin/day16.rs:270 | `D8005AC2A8F0` solves to 1 |
| PacketSamples.GreaterSample | 2021/src/bin/day16.rs:271 | `F600BC2D8F` solves to 0 |
| PacketSamples.EqualSample | 2021/src/bin/day16.rs:272 | `9C005AC2F8F0` solves to 0 |
| PacketSamples.NestedSample | 2021/src/bin/day16.rs:273 | `9C0141080250320F1802104A08` solves to 1 |
| Brackets.FindMatchingOpener | 2021/src/bin/day10.rs:18-23 | a byte has a matching opener exactly when it is one of the four closers, and that opener is the one of the same kind |
| Brackets.OpenerIn | 2021/src/bin/day10.rs:18-23 | the search finds an opener exactly when some pair has the byte as its closer, and gives that pair's opener |
| Brackets.FindMatchingCloser | 2021/src/bin/day10.rs:25-30 | a byte has a matching closer exactly when it is one of the four openers, and that closer is the one of the same kind |
| Brackets.CloserIn | 2021/src/bin/day10.rs:25-30 | the search finds a closer exactly when some pair has the byte as its opener, and gives that pair's closer |
| Brackets.MatchingInverse | 2021/src/bin/day10.rs:5-30 | the opener of a closer is o exactly when the closer of o is that closer: the two lookups are inverse over the four pairs |
| Brackets.ScanConcat | 2021/src/bin/day10.rs:41-49 | checking two runs of bytes in turn is checking them joined |
| Brackets.ScanStops | 2021/src/bin/day10.rs:43-44 | once a line is found corrupt, or a closer finds nothing to close, the rest of the line changes nothing |
| Brackets.FindCorruptCloser | 2021/src/bin/day10.rs:39-51 | the loop returns the first closer that does not match the most recent unmatched opener, none when there is no such closer, and an error when a closer meets an empty stack |
| Brackets.CorruptIsCloser | 2021/src/bin/day10.rs:42-45 | a byte reported as corrupt is always one of the four closers |
| Brackets.TextKeepsStack | 2021/src/bin/day10.rs:41-49 | a properly nested chunk leaves the openers before it as they were |
| Brackets.TextsKeepStack | 2021/src/bin/day10.rs:41-49 | a run of properly nested chunks leaves the openers before it as they were |
| Brackets.NestedIsNotCorrupt | 2021/src/bin/day10.rs:39-51 | a line of properly nested chunks is not corrupt |
| Brackets.WrongCloserIsCorrupt | 2021/src/bin/day10.rs:43-44 | a closer of another kind than the open chunk, after any nested chunks, is reported as the corrupt closer |
| Brackets.FindOpeners | 2021/src/bin/day10.rs:91-101 | the loop leaves what the reference leaves: any closer pops, popping nothing leaves nothing, anything else is pushed |
| Brackets.OpenersAgree | 2021/src/bin/day10.rs:91-101 | on a line that is not corrupt, the openers left are exactly the unmatched openers of the corruption check |
| Brackets.Complete | 2021/src/bin/day10.rs:103-105 | the completion has at most one byte per opener left, and every byte is a closer |
| Brackets.CompleteCloses | 2021/src/bin/day10.rs:103-105 | the completion closes every remaining opener in reverse order, leaving nothing open |
| Brackets.StackHasNoClosers | 2021/src/bin/day10.rs:41-49 | every byte left on the stack comes from the line |
| Brackets.CompletionCloses | 2021/src/bin/day10.rs:117-120 | a bracket line that is not corrupt, followed by its completion, is balanced |
| Brackets.PushedAreOpeners | 2021/src/bin/day10.rs:41-49 | on a line of brackets, every byte left on the stack is an opener |
| Brackets.CorruptScore | 2021/src/bin/day10.rs:56-64 | a corrupt closer scores 3, 57, 1197 or 25137 by kind, and any other byte is an error |
| Brackets.CorruptionScore | 2021/src/bin/day10.rs:66-72 | scoring the corrupt lines fails only on a closer with nothing to close, never on an unexpected closer, since a corrupt byte is always a closer |
| Brackets.Rank | 2021/src/bin/day10.rs:113 | a byte has a rank exactly when it is a closer, and the rank is its position among ) ] } > |
| Brackets.ScoreClosers | 2021/src/bin/day10.rs:107-115 | bytes that are not closers are skipped, so the score is 0 exactly when no byte is a closer |
| Brackets.ScoreSnoc | 2021/src/bin/day10.rs:114 | one more closer multiplies the score by five and adds its rank plus one |
| Brackets.UnscoreStep | 2021/src/bin/day10.rs:114 | reading back a score undoes one step of the fold |
| Brackets.UnscoreScore | 2021/src/bin/day10.rs:107-115 | reading back the score of a run of closers gives the closers: the score loses nothing |
| Brackets.UnscoreSnoc | 2021/src/bin/day10.rs:107-115 | reading back the score extends closer by closer |
| Brackets.ScoreInjective | 2021/src/bin/day10.rs:107-115 | two runs of closers with the same score are the same run |
| Brackets.ScoreLine | 2021/src/bin/day10.rs:117-120 | the score of a line reads back as its completion, so it loses nothing |
| Brackets.ScoreExample | 2021/src/bin/day10.rs:138 | }}]])})] scores 288957 |
| MineRotation.ParseDirection | 2018/13/day13/part1.py:77-78 | a glyph gives a direction exactly when it is one of v < > ^, and the direction found is drawn with that glyph |
| MineRotation.NextRotation | 2018/13/day13/rotation.py:17-20 | the next turn always differs from the last one |
| MineRotation.ZipDlru | 2018/13/day13/rotation.py:32 | zipping down, left, right and up with four directions maps each to the one at its position |
| MineRotation.MakeRotatedDirections | 2018/13/day13/rotation.py:23-34 | the table has a row for each of the three turns, each mapping down, left, right and up to the listed directions |
| MineRotation.RotateIn | 2018/13/day13/rotation.py:40-45 | a missing turn is a bad-rotation error, a missing direction a bad-direction error, and otherwise the result is the table's entry |
| MineRotation.RotateDirectionTotal | 2018/13/day13/rotation.py:37-45 | with the built table, turning never fails and gives the direction listed for the turn |
| MineRotation.DirectionIndex | 2018/13/day13/rotation.py:24 | each direction has its place among down, left, right and up |
| MineRotation.Rotate | 2018/13/day13/rotation.py:40-45 | the total turn agrees with the table lookup |
| MineRotation.NextRotationCycle | 2018/13/day13/rotation.py:17-20 | the turns cycle right, left, straight and back to right after three steps |
| MineRotation.StraightIsIdentity | 2018/13/day13/rotation.py:28 | going straight keeps the direction |
| MineRotation.LeftRightInverse | 2018/13/day13/rotation.py:26-30 | a left turn and a right turn undo each other |
| MineRotation.FourLeftTurns | 2018/13/day13/rotation.py:27 | four left turns bring a cart back to its direction |
| MineRotation.RotationIsBijection | 2018/13/day13/rotation.py:26-30 | every turn is one-to-one and undone by its inverse turn |
| MineRotation.ThreeIntersections | 2018/13/day13/rotation.py:17-30 | three intersections in a row, starting after a right turn, restore the facing and the last turn |
| MineTrack.FindMember | 2018/13/day13/track.py:20-22 | the member found has the glyph, and none means no member has it |
| MineTrack.ParseTrackEntry | 2018/13/day13/track.py:19-27 | a segment's own glyph gives that segment, a horizontal cart gives a horizontal segment, a vertical cart a vertical one, and nothing else is a segment |
| MineTrack.TrackBuilder.constructor | 2018/13/day13/track.py:30-34 | a new builder has no rows and an empty current row |
| MineTrack.TrackBuilder.Append | 2018/13/day13/track.py:36-44 | a segment glyph extends the current row, a newline ends it, and any other character is an error that changes nothing |
| MineTrack.TrackBuilder.Build | 2018/13/day13/track.py:46-49 | the rows built, or an error when the last row was not ended |
| MineTrack.BuildTrack | 2018/13/day13/part1.py:87-93 | feeding a text to a builder character by character gives the reference parse of the text |
| MineTrack.AppendTextStops | 2018/13/day13/track.py:43-44 | after a bad character, the rest of the text does not change the error |
| MineTrack.AppendTextConcat | 2018/13/day13/part1.py:90-92 | feeding two texts in turn is feeding them joined |
| MineTrack.RowText | 2018/13/day13/track.py:7-13 | the text of a row has one glyph per segment, each the segment's own |
| MineTrack.AppendRowText | 2018/13/day13/track.py:36-39 | the text of a row extends an empty current row to that row |
| MineTrack.AppendLine | 2018/13/day13/track.py:36-42 | a row's text and a newline add that row |
| MineTrack.ParseTrackText | 2018/13/day13/track.py:19-49 | parsing the text of any track gives the same track back |
| MineTrack.AppendTrackText | 2018/13/day13/track.py:36-42 | the text of a track adds its rows in order |
| MineTrack.MoveFirst | 2018/13/day13/track.py:36-42 | joining a run after its first element is joining the whole run |
| MineTrack.AppendFirstRow | 2018/13/day13/track.py:36-42 | feeding a track's text adds its first row and then the text of the rest |
| MineTrack.IncompleteLastRow | 2018/13/day13/track.py:46-48 | a track's text followed by a row without its newline is an incomplete-row error |
| MineCarts.InsertCart | 2018/13/day13/part1.py:66-67 | the cart is appended to the bucket of its cell, created if needed, and every other bucket is unchanged |
| MineCarts.LeastExists | 2018/13/day13/part1.py:108 | a non-empty set of cells has a first one in reading order |
| MineCarts.Least | 2018/13/day13/part1.py:108 | the first cell in reading order is in the set and comes before every other cell of it |
| MineCarts.SortedDescending | 2018/13/day13/part1.py:108 | the queue holds exactly the occupied cells, each once, in reverse reading order |
| MineCarts.Step | 2018/13/day13/part1.py:112-116 | a move goes to a neighbouring cell, in the same column exactly when going down or up, and later in reading order exactly when going down or right |
| MineCarts.StepBack | 2018/13/day13/part1.py:113-116 | moving back the opposite way returns to the cell, and the opposite way is two left turns |
| MineCarts.MoveCarts | 2018/13/day13/part1.py:103-120 | the loop gives the reference move: cells in reading order, carts of a cell in order, and the first cell entered that is still queued or already entered as the collision |
| MineCarts.CollisionKept | 2018/13/day13/part1.py:117-118 | once a collision is recorded, the rest of the move keeps it |
| MineCarts.BucketKeepsCollision | 2018/13/day13/part1.py:117-118 | moving a bucket keeps a collision already recorded |
| MineCarts.BucketSingles | 2018/13/day13/part1.py:111-119 | moving a bucket without a collision leaves at most one cart per cell |
| MineCarts.QueueSingles | 2018/13/day13/part1.py:109-119 | moving the queue without a collision leaves at most one cart per cell |
| MineCarts.NoCollisionNoSharing | 2018/13/day13/part1.py:103-120 | when the move reports no collision, no two carts share a cell |
| MineCarts.BucketCollisionLands | 2018/13/day13/part1.py:117-119 | after moving a bucket, a recorded collision is an occupied cell and no cell is emptied |
| MineCarts.QueueCollisionLands | 2018/13/day13/part1.py:109-119 | after moving the queue, a recorded collision is an occupied cell |
| MineCarts.CollisionIsOccupied | 2018/13/day13/part1.py:103-120 | the collision reported is a cell the moved carts occupy |
| MineCarts.LoneCart | 2018/13/day13/part1.py:103-120 | a single cart moves one step in its direction and never collides |
| MineCarts.MoveSingle | 2018/13/day13/part1.py:111-119 | a one-cart bucket moves that cart |
| MineCarts.InsertIntoEmpty | 2018/13/day13/part1.py:66-67 | inserting into no carts gives one bucket holding the cart |
| MineCarts.HeadOnCollision | 2018/13/day13/part1.py:103-120 | on ->-<- the two carts meet in the middle cell, which is reported as the collision |
| MineCarts.HeadOnQueue | 2018/13/day13/part1.py:108 | the two cells of the example are queued last first |
| MineCarts.HeadOnFirst | 2018/13/day13/part1.py:110-119 | in the example, the cart moving right goes first and lands alone |
| MineCarts.HeadOnSecond | 2018/13/day13/part1.py:110-119 | in the example, the cart moving left then joins it, which is the collision |
| MineCarts.Entries | 2018/13/day13/part1.py:111 | a bucket lists one entry per cart |
| MineCarts.PlacedAt | 2018/13/day13/part1.py:23 | the carts placed are one cell's carts plus those of the other cells |
| MineCarts.PlacedInsert | 2018/13/day13/part1.py:66-67 | inserting a cart adds exactly that cart at that cell |
| MineCarts.PlacedBucket | 2018/13/day13/part1.py:23 | the carts placed are a cell's bucket plus those of the other cells, for any cell |
| MineCarts.PlacedAfterInsert | 2018/13/day13/part1.py:66-67 | inserting into a bucket extends it by the cart in the count of placed carts |
| MineCarts.Reorder | 2018/13/day13/part1.py:119 | adding counts in another order gives the same counts |
| MineCarts.Shifted | 2018/13/day13/part1.py:113-116 | moving every listed cart one step keeps the list's length |
| MineCarts.BucketPlaced | 2018/13/day13/part1.py:111-119 | moving a bucket adds each of its carts, moved one step, to the placement |
| MineCarts.ShiftedEntriesLast | 2018/13/day13/part1.py:111-119 | moving a bucket's entries is moving all but the last and then the last |
| MineCarts.ShiftedConcat | 2018/13/day13/part1.py:111-119 | moving two lists of carts is moving each |
| MineCarts.QueuePlaced | 2018/13/day13/part1.py:109-119 | moving the queue adds every queued cart, moved one step, to the placement |
| MineCarts.ListingAgrees | 2018/13/day13/part1.py:109-111 | listing the queue depends only on the buckets of the queued cells |
| MineCarts.PlacedListing | 2018/13/day13/part1.py:108-111 | listing the buckets of every occupied cell once lists every cart |
| MineCarts.MoveRelocatesEveryCart | 2018/13/day13/part1.py:103-120 | the move relocates every cart exactly once: the carts after it are the carts before it, each moved one step |
| MineCarts.MoveKeepsCount | 2018/13/day13/part1.py:103-120 | the move keeps the number of carts |
| MineCarts.CurvesAreInvolutions | 2018/13/day13/part1.py:143-148 | each curve's turn is its own inverse and always swaps the axis |
| MineCarts.RotateCart | 2018/13/day13/part1.py:141-159 | a curve swaps the axis and keeps the last turn; an intersection takes the next turn; a straight keeps an aligned cart and rejects a crossing one; a space is a flew-off-track error and everything else a bad-cart error |
| MineCarts.PyIndex | 2018/13/day13/part1.py:166 | indexing follows Python: a negative index counts from the end and an index outside is an error |
| MineCarts.RotateAll | 2018/13/day13/part1.py:167 | a bucket turns without error exactly when every cart does, each cart turned in place, and the error is the first cart's error |
| MineCarts.RotatedPlacement | 2018/13/day13/part1.py:162-168 | turning keeps the occupied cells and the number of carts in each |
| MineCarts.RotateCarts | 2018/13/day13/part1.py:162-168 | the loop succeeds exactly when every bucket turns, gives the reference turned placement, and otherwise reports the error of some bucket |
| MineCarts.SameShapeSameCount | 2018/13/day13/part1.py:164-167 | placements with the same cells and bucket sizes hold as many carts |
| MineCarts.RotateKeepsCount | 2018/13/day13/part1.py:162-168 | turning keeps the number of carts |
| MineCarts.Advance | 2018/13/day13/part1.py:47-52 | a tick moves, then turns, and returns the turned carts with the move's collision; it fails exactly when some moved cart cannot turn |
| MineCarts.TickKeepsCount | 2018/13/day13/part1.py:47-52 | a tick keeps the number of carts |
| MineCarts.SimulateSettles | 2018/13/day13/part1.py:59-60 | more ticks never change an outcome already reached |
| MineCarts.FindFirstCollision | 2018/13/day13/part1.py:55-63 | the loop reports what the reference run gives: the first collision, a failure, or running out of ticks |
| MineCarts.RenderState | 2018/13/day13/part1.py:123-138 | one line per row and one glyph per segment: the segment when the cell is empty, the cart when it holds one, and the collision glyph otherwise |
| MineCarts.RenderedCellReadsBack | 2018/13/day13/part1.py:131-133 | an empty cell, or one cart along a straight segment, reads back as its segment; a collision glyph is not a track glyph |

## Left out

- File and console I/O is not modelled, and inputs and outputs are plain values. This covers every `from_file`, `load_*` and `main` function, and `SnapshotPrinter` with its directory and file writes.
- Sample tests that read puzzle input files are not modelled, because they read files. These are the 2021 day 14 samples (1588 and 2188189693529), the 2021 day 18 homework sums (4140 and 3993), the 2021 day 10 `solve` totals, the 2020 day 22 sample (306), the first 2020 day 13 sample (1068781), the 2020 day 8 `sample1` test (answer 5, `2020/src/bin/day8.rs:130-133`), and the 2020 day 4 tests `valids` (both parts count 4, `2020/src/bin/day4.rs:149-155`) and `invalids2` (part 2 counts 0, `2020/src/bin/day4.rs:157-162`).
- The 2021 day 21 sample game (starts 4 and 8, answer 739785) is not proved. It takes hundreds of turns, which is too costly to unfold in the verifier. `DiracDice.OutcomeOf` gives the answer of every finished game.
- Fixed-width integers are unbounded in the model: the `u8` snailfish scalars, the `i32` accumulator, the `i64` almanac ranges, the `u64` scores and products, and `usize` counts. Overflow and wrap-around are therefore not modelled. In particular `target - source` and `source + length` in `2023/day5/src/map.rs` can overflow in the source.
- Python dictionary iteration order and Rust `HashMap` order are not modelled. Maps are Dafny `map`s, and pair and byte counts are `multiset`s.
- The Day 16 part one version sum (`packet_version_sum`, `subpackets_version_sum`, `skip_literal`) is not modelled. Only evaluation (part two) is.
- Of the orderings that tests `hand_cmp` and `hand_cmp_with_jokers` check (`2023/day7/src/hand.rs:118-139`), three pairs are proved: one ordered by type, one by cards, and one under the joker rule. The other pairs are not written out. Each would be one more literal proof of the same two kinds.
- The 2021 day 10 part two `solve` is not modelled, because it takes the median with `select_nth_unstable`. `Brackets.ScoreLine` gives the score of each line.
- `part1::solve` and `part2::solve` of 2021 day 14 only fix the number of rounds at 10 and 40. `Polymer.Solve` takes the number of rounds as a parameter.
- `Token::parse_all` and the `solve` functions of 2020 day 18 are not modelled. The evaluators take token sequences.
- `parse_line` of 2020 day 13 is not modelled, and buses are given as values. The decks of 2020 day 22 are parsed in `deck.rs`, which is not part of this model.
- `Row::from_line` of 2023 day 9 and the `Grid` of 2020 day 11 are not part of this model.
- `masked.rs` imports the address width `LEN`. The model fixes it at 36, the value `mask.rs` gives it.
- Non-ASCII text is not modelled. Characters are single bytes or `char`s as each source reads them.
- Snailfish.Reduce: reduction takes at most `fuel` steps. That explosions and splits keep a well-formed number is not proved, so the fixed-point property is stated for results that are numbers.
- Snailfish.Add: inherits the fuel bound and the conditional fixed point of `Snailfish.Reduce`.
- Snailfish.Sum: states the empty, single and reduced cases, and not the value of a longer sum.
- The snailfish addition and sum examples in `2021/src/bin/day18.rs:400-481` are not proved. Each needs dozens of reduction steps on numbers of about fifty symbols, and every step is a literal proof the verifier finds costly. The single-step examples are proved.
- Snailfish.SolvePart1: states the empty and single-number cases only.
- Snailfish.SolvePart2: relates the answer to the magnitudes it compared (a ghost list), not to an independent definition of the pairwise sums.
- Snailfish.Magnitude: on symbol sequences that are not numbers, it returns an error where the source may go on or panic.
- BusSchedule.SolveBuses: the source asserts that every bus id is prime, and the model takes this as a precondition. For distinct prime ids, `BusSchedule.SolveBusesEarliest` proves that an answer exists and is the earliest. When two buses share an id, the model only states that an answer it finds meets every bus.
- MemoryGame.Game.constructor: `start` asserts that the starting numbers are not empty (`2020/src/day15/game.rs:16`). The model takes this as a precondition, so an empty start has no outcome.
- MemoryGame.Play: takes the same precondition as `MemoryGame.Game.constructor`, because it starts the game the same way.
- DiracDice.WrapAdd: the source asserts `i > 0`, and the model takes this as a precondition, with a non-zero circle size.
- MineCarts.FindFirstCollision: the source loops until a collision, and the model stops after `maxTicks` ticks.
- MineCarts.RotateCarts: when several buckets fail to turn, it states only that the error reported is that of some failing bucket, because which one depends on dictionary order.
- Combat.Play: the game is bounded by `fuel` rounds, because the source loop need not end.
