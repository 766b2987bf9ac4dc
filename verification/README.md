# mahjong-last-game in Dafny

A model of the library core of `mahjong-last-game`, a calculator for the last game of a
four-player mahjong match played under rank-based scoring such as the M-League rules.
Seat 3 is the dealer.

The core has two parts.

- **`GameConfig` and `to_points`.** A game ends with four raw scores, in units of 100
  points. Their sum plus ten units per deposit stick left on the table is 1000.
  `to_points` sorts the scores in descending order and visits each distinct score once.
  The seats holding a score form a tie group. The group receives the rank awards of the
  sorted positions it occupies. If it holds first place, it also receives ten units per
  deposit stick. Both amounts are split among the group by Euclidean division. The
  lowest-numbered seat of the group also takes the remainder. The awards always sum to
  -1000, so the final points sum to zero.
- **`FinalGameState` and `calc`.** For every winner `i` and every seat `j`, `calc` walks a
  catalog of winning-hand values:
  - self-draws when `i == j`;
  - wins on `j`'s discard otherwise;
  - the dealer's catalogs when `i` is the dealer.

  Each ending moves raw score between seats. The winner then takes the deposit, and
  `to_points` turns the raw scores into points, which are added to the points carried
  into the game. Finally the seats are ranked by a stable sort on (final points
  descending, carried points descending).

The modules follow that structure:

- `Seats` (`seats.dfy`): four-seat vectors, their sum, the dealer seat and `Option`.
- `Order` (`order.dfy`): descending sort, de-duplication and the counting facts that
  relate a sorted sequence to the unsorted one.
- `Indexing` (`indexing.dfy`): the positions where a sequence holds a value, and sums of
  weights over positions.
- `RankPoints` (`rank_points.dfy`): the rank-award algorithm itself. `ToPoints` runs the
  program's loop over sorted distinct scores. `ReferencePoints` describes the same result
  seat by seat, without sorting. The module proves the two equal and zero-sum.
- `RankFacts` (`rank_facts.dfy`): consequences of that description:
  - a unique seat;
  - tie groups and where the deposit goes;
  - the all-tied table;
  - the worked examples of the unit test.
- `Ranking` (`ranking.dfy`): the stable sort of the seats that `report` performs, and the
  fact that exactly one list of the seats is ordered that way.
- `FinalGame` (`final_game.dfy`): the standing before the last game, the `tsumo`, `rong`
  and `report` closures, and the enumeration of `calc`. Each printed report becomes a
  `Line` value, listed in the order `calc` prints them.

The library aborts on its assertions, so they are modelled in two ways:

- in the constructors `GameConfig::new` and `FinalGameState::new`, as an `Option` result
  that is `None` exactly when an assertion would fail;
- in `to_points` and `report`, as preconditions.

`FinalGame.SettledSum` proves that the assertion in `report` always holds for a standing
`FinalGameState::new` accepts. `RankPoints.ReferenceZeroSum` proves the same for the final
assertion of `to_points`.

## Model

| member | source | states |
|---|---|---|
| RankPoints.NewConfig | src/lib.rs:12-15 | A configuration is produced if and only if the four rank awards sum to -1000; it keeps the awards given and satisfies the invariant every later step relies on |
| RankPoints.MLeague | src/lib.rs:16-18 | The M-League preset passes the constructor's check, with awards 200, -200, -400, -600 |
| RankPoints.ToPoints | src/lib.rs:19-44 | Given a valid configuration, a non-negative deposit and raw scores that with the deposit make 1000, the points sum to zero and equal, seat by seat, the sort-free description: raw score, plus the group's share of its rank awards, plus the group's share of the deposit when nobody is above it |
| RankPoints.PointsFromSorted | src/lib.rs:24-43 | The loop over the distinct values of any descending arrangement of the scores gives the sort-free description and sums to zero |
| RankPoints.ReferenceZeroSum | src/lib.rs:42 | The per-seat description of the points always sums to zero under the preconditions of lines 20-21, with the awards summing to -1000 |
| RankPoints.Distribute | src/lib.rs:29-35 | The split gives every seat of the group the Euclidean quotient and only the first listed seat also the remainder; seats outside the group are unchanged and the total grows by exactly the amount split |
| RankPoints.AwardGroupSeat | src/lib.rs:26-39 | One pass of the loop changes only the seats holding that score, each by its rank share plus its deposit share |
| RankPoints.AwardGroupsSeats | src/lib.rs:25-40 | After the loop over distinct scores, each seat has gained exactly its own group's rank share and deposit share, and nothing from other groups |
| RankPoints.AwardGroupsSum | src/lib.rs:25-40 | The loop adds to the total the rank awards of the groups it visits, plus ten times the deposit once if it visits the top score |
| RankPoints.AllGroupsSum | src/lib.rs:25-42 | Visiting every distinct score hands out all four rank awards and the whole deposit, so the final total is zero |
| RankPoints.GroupRanks | src/lib.rs:26 | The sorted positions holding a score are the contiguous block that starts after the seats above it and is as long as the number of seats holding it |
| RankPoints.GroupAwardOfSeat | src/lib.rs:36 | The award `to_points` sums over the sorted positions of a seat's score is the sum of the rank awards over that block |
| RankPoints.AwardGroupSum | src/lib.rs:36-39 | One pass adds its block's rank awards, and the deposit exactly when its score is the top sorted score |
| RankPoints.ReferencePoints | src/lib.rs:19-44 | The sort-free reference description of the outcome (raw score plus the group's share of its rank awards and, for the top group, of the deposit); it has no contract of its own and is the description `ToPoints` is proved to return exactly |
| RankPoints.TiedSeatsLevel | src/lib.rs:29-35 | Of two seats with equal raw scores, two that do not lead their group end level, and the group's lowest-numbered seat ends at least as high as the other |
| RankPoints.AddToEach | src/lib.rs:31-33 | The inner loop of `distribute`; it has no contract of its own, and its effect is stated by `AddToEachSeat` and `AddToEachSum` |
| RankPoints.AddToEachSeat | src/lib.rs:31-33 | Each listed seat gains the share exactly once and every unlisted seat keeps its points |
| RankPoints.AddToEachSum | src/lib.rs:31-33 | The total grows by the share times the number of listed seats |
| RankPoints.AwardGroup | src/lib.rs:26-39 | One pass of the loop over distinct scores; it has no contract of its own, and its effect is stated by `AwardGroupSeat`, `AwardGroupMember` and `AwardGroupOther` |
| RankPoints.AwardGroupMember | src/lib.rs:28-39 | A seat of the visited group gains its split of the group's rank awards, and of ten times the deposit when the group is first, with the remainder only for the group's lowest-numbered seat |
| RankPoints.AwardGroupOther | src/lib.rs:26-39 | A seat outside the visited group keeps its points |
| RankPoints.AwardGroups | src/lib.rs:25-40 | The loop over distinct scores; it has no contract of its own, and its effect is stated by `AwardGroupsSeats` and `AwardGroupsSum` |
| Order.SortDesc | src/lib.rs:23 | The sorted scores are in descending order and are a permutation of the scores |
| Order.DescendingUnique | src/lib.rs:23 | Two descending arrangements of the same scores are equal, so the order of `sorted().rev()` is determined by the scores alone |
| Order.Dedup | src/lib.rs:25 | Removing consecutive duplicates keeps exactly the same values and the first element, and leaves no adjacent repeats; from a descending input it gives a strictly descending sequence |
| Order.SortedOfCounts | src/lib.rs:23 | Sorting keeps, for every value, the number of scores above it and the number equal to it |
| Order.TieBlock | src/lib.rs:26 | In a descending sequence a value occupies exactly the positions from the count above it to that count plus its own count |
| Order.PermutationKeepsAbove | src/lib.rs:23 | Rearranging the scores keeps the number of scores above any value |
| Indexing.Positions | src/lib.rs:26-27 | Every filtered position is a valid index of the scanned sequence |
| Indexing.PositionsSpec | src/lib.rs:26-27 | Filtering positions by value yields, in increasing order, exactly the positions holding the value, as many as it occurs |
| Indexing.PositionsFirst | src/lib.rs:34 | The first filtered position is a given seat holding the value if and only if no lower seat holds it, so the remainder goes to the lowest-numbered tied seat |
| Indexing.TieBlockPositions | src/lib.rs:26 | In the sorted scores the positions of a value are one contiguous range |
| Indexing.GroupsCover | src/lib.rs:25-36 | When every position holds one of the distinct values, summing the weights group by group sums each position exactly once |
| RankFacts.GroupMemberGain | src/lib.rs:28-39 | A seat's points minus its raw score is its split of the group's rank awards plus its split of ten times the deposit when the group is on top, and of nothing otherwise |
| RankFacts.GroupTotal | src/lib.rs:29-39 | A tie group as a whole gains exactly the rank awards of the positions it occupies, plus ten times the deposit if and only if nobody is above it |
| RankFacts.DepositOnlyTop | src/lib.rs:37-39 | A seat with somebody above it ends with the same points whatever the deposit |
| RankFacts.UniqueSeat | src/lib.rs:26-39 | A seat whose score nobody shares gets its raw score plus the award of its sorted position, plus ten times the deposit when that position is first |
| RankFacts.SortedPlace | src/lib.rs:23-26 | The number of seats above a seat is a sorted position that holds that seat's score |
| RankFacts.SplitAmongGroup | src/lib.rs:29-35 | Splitting two amounts among a tie group by quotient to all and remainder to the lowest seat hands out exactly the two amounts, for any group size |
| RankFacts.AllTiedZero | src/lib.rs:180-181 | When all four raw scores are equal, every seat ends on zero, whatever the deposit |
| RankFacts.GoldenCases | src/lib.rs:137-181 | Every worked example of the unit test meets the preconditions and yields the expected points under the M-League awards |
| Ranking.InsertOrdered | src/lib.rs:75 | Stable insertion of a higher-numbered seat into an ordered list keeps it ordered by (points descending, prior points descending, seat number) |
| Ranking.SortSeatsOrdered | src/lib.rs:74-75 | Stable insertion sort of seats given in increasing order produces a list in which every earlier seat outranks every later one |
| Ranking.RankSeats | src/lib.rs:74-75 | The ranking lists each of the four seats once, and every earlier seat has more final points, or as many and more prior points, or equal keys and a lower seat number |
| Ranking.OrderedUnique | src/lib.rs:75 | Two lists of the same seats that are both ordered by rank are equal |
| Ranking.RankingUnique | src/lib.rs:74-75 | Any list that is a ranking is the one `report` computes, so any stable sort on that key gives the same result |
| FinalGame.NewState | src/lib.rs:55-64 | A standing is produced if and only if the carried points sum to zero and the raw scores plus ten per deposit stick make 1000; it keeps its fields |
| FinalGame.Div100 | src/lib.rs:84 | Division by 100 rounds toward zero, as `/` on `i32` does: the remainder has the dividend's sign and is smaller than 100 in size |
| FinalGame.TsumoPayment | src/lib.rs:84 | What a losing seat pays on a self-draw, less the stack, is the dealer's part for the dealer seat and the non-dealer part otherwise, divided by 100 rounding toward zero |
| FinalGame.RongPayment | src/lib.rs:95 | What the discarder pays, less three times the stack, is the hand value divided by 100 rounding toward zero |
| FinalGame.Tsumo | src/lib.rs:80-90 | On a self-draw every other seat loses its part (the dealer's part if it is the dealer) plus the stack, the winner gains exactly the sum of the three, and the total is unchanged |
| FinalGame.RongScores | src/lib.rs:93-99 | On a win by discard the discarder loses the hand value divided by 100 toward zero plus three times the stack, the winner gains the same, no other seat changes and the total is unchanged |
| FinalGame.Pay | src/lib.rs:96-97 | Moving an amount from one seat to another changes only those two seats, by exactly the amount each way, and keeps the total |
| FinalGame.TransferredSum | src/lib.rs:80-99 | Every ending moves raw score between seats without changing the total |
| FinalGame.SettledSum | src/lib.rs:68-70 | After an ending and the winner taking the deposit, the raw scores of a standing the constructor accepts make 1000, so the assertion in `report` holds |
| FinalGame.Report | src/lib.rs:68-78 | The winner takes ten per deposit stick; the scores then make 1000; the points are the sort-free description with no deposit plus the carried points, with an unchanged total; and the ranking is the stable rank order |
| FinalGame.LineSums | src/lib.rs:68-73 | Every reported line of a valid standing has raw scores making 1000 and final points summing to zero |
| FinalGame.AddPoints | src/lib.rs:73 | Adding the carried points seat by seat adds their totals |
| FinalGame.Bucket | src/lib.rs:101-126 | Bucket (i, j) holds self-draws exactly when i equals j, all won by i, and discards otherwise are by j; the dealer's or the non-dealer's catalog decides the count |
| FinalGame.ReportBucket | src/lib.rs:101-126 | The lines of a bucket report its endings one for one, in catalog order |
| FinalGame.ReportRow | src/lib.rs:92-127 | The lines for winner i report the buckets (i, 0) to (i, 3), in order |
| FinalGame.Calc | src/lib.rs:66-129 | The lines report every ending in the order the loops visit them; each line's raw scores make 1000 and its points sum to zero |
| FinalGame.Settle | src/lib.rs:68-99 | An ending is settled by the closure that handles it and reported |
| FinalGame.Transfer | src/lib.rs:80-99 | The transfer of an ending is the self-draw or discard transfer, with the total unchanged |
| FinalGame.Row | src/lib.rs:92-127 | The endings of winner i's buckets are all won by i, are discards exactly when the bucket seat differs from i, and come by non-decreasing bucket seat |
| FinalGame.Rows | src/lib.rs:67-127 | The endings of the first i winners are well formed, all won by a seat below i, and come by winner and then bucket seat |
| FinalGame.Endings | src/lib.rs:66-129 | Every ending `calc` reports is well formed (a winner seat, and on a discard a different discarder seat), and they come ordered by winner and then bucket seat |
| FinalGame.OrderedAppend | src/lib.rs:67-127 | Two runs ordered by winner and bucket seat, the second starting no earlier than the first ends, make one ordered run, as consecutive winners' rows do |
| FinalGame.EndingsCount | src/lib.rs:67-127 | The number of lines is three times the non-dealer self-draw catalog, nine times the non-dealer discard catalog, the dealer self-draw catalog and three times the dealer discard catalog |

## Left out

- The winning-hand catalogs (`child_tsumo`, `parent_tsumo`, `child_rong`, `parent_rong`) come from the `agari_scores` module, which is not part of this model. `FinalGame.Calc` takes them as a `Catalogs` parameter of arbitrary integer sequences. `Div100` rounds toward zero for either sign, so they need not be non-negative.
- All console output of `calc` (`print!` and `println!`) is left out. Each report is returned as a `Line` holding the ending, the raw scores, the points and the ranking. The seat-number string that `println!` joins is not modelled.
- `src/main.rs` is not part of this model. It holds fixed match constants and console grouping of results.
- Riichi sticks, draws (ryukyoku), a `Results` structure and a `ranks()` inverse permutation are not modelled. They do not exist in `src/lib.rs`.
- 32-bit overflow: every quantity is an unbounded `int`. `i32` wrap-around and overflow panics of the library are not modelled.
- Sorting algorithms: `sorted()` from itertools and the slice `sort_by_key` are modelled by insertion sorts. `Order.DescendingUnique` and `Ranking.RankingUnique` show that any sort meeting the same order gives the same result.
- `FinalGame.NewState` does not require a non-negative deposit, because `FinalGameState::new` does not check it. `to_points` is only ever called with deposit 0 from `report`.

## Design notes

A 2/2 tie with no deposit does not zero the table: each pair keeps its raw score and
splits the awards of the two places it occupies. The unit test's expected values show
this (src/lib.rs:147-151: `[237, 263, 263, 237]` gives `[-263, 263, 263, -263]`).
`RankFacts.GoldenCases` includes that example.
