# Advent of Code 2023, days 1 to 9, in Dafny

This project models the computational core of a set of Rust solutions to the
first nine puzzles of Advent of Code 2023. It proves what each solution
computes. Every day is one module (`Day01` … `Day09`), and each module follows
its `main.rs`:

- reading the puzzle text into the day's data (`Data::from_str`,
  `read_part1`, `read_part2`);
- the two answers (`part1`, `part2`);
- the example answers the tests pin.

Shared modules model the pieces of the Rust standard library the solutions
rely on:

- `Text`: `lines`, `split_once`, `split_ascii_whitespace`, `trim`,
  `strip_prefix`/`strip_suffix`, number parsing.
- `Wrappers`: `Result`, `Option`, and collecting into a `Result`.
- `Seqs`: sums, products, minima, maxima, counts.
- `Sorting`: `sort_unstable` under a total order.
- `Arith`: a few facts about `%`.

A panic (`unwrap`, `expect`, `panic!`, `assert!`, `unreachable!`, an index out
of bounds) is modelled as an `Err(Panic(..))` value. The source's
`AOCError::ParseError` is modelled as `Err(ParseError(..))`. Every operation
therefore states both its successful result and its failure cases.

The readers of days 2 and 4 to 9 have a writer (`Show…`), and a round-trip
lemma proves that writing data and reading it back gives the data. Days 1
and 3 have no writer: their readers are characterised directly
(`Day01.ReadLine1Calibration`, `Day01.ReadLine2Spec`, `Day03.ReadDescribes`).

The examples of the puzzle statements enter the model in three ways:

- as literal text lines, read by the day's reader: days 1 and 3;
- as data written out with the `Show…` writers and read back: days 4, 6, 7
  and 8;
- as already-parsed data: days 2, 5 and 9.

Points where the model follows the code closely:

- **Day 3, numbers at the end of a line.** `store_id` is called with the
  column of the number's last digit instead of the column after it, so such a
  number owns the cells one column to the left of its digits.
  `Day03.EndOfLineShift` shows the effect on the line `#.12`.
- **Day 3, part 2.** It reuses one buffer across all gears; see Findings.
- **Day 5, the `X-to-Y map:` headers.** The map keyed by the header names is
  taken as already resolved into the ordered chain seed → … → location.
- **Day 6, part 2.** It takes the floating-point roots of
  `c * c - time * c + distance`. The model states their ceiling and floor
  exactly in integers, then checks the four `assert!`s of the source.
- **Day 8, part 1.** The loop stops only at `ZZZ`. The method takes a step
  bound. `Day08.NeverArrives` gives a sufficient condition for a walk never
  to arrive: it comes back to the same node after a whole number of passes
  through the path without having met `ZZZ`.
- **`HashMap` iteration order** (days 2, 3, 7) is a parameter. The answers
  are proved not to depend on it, except in the Day 3 finding.

## Model

| member | source | states |
|---|---|---|
| Day01.FindDigitSpec | day01/src/main.rs:40-44 | the forward search returns the leftmost ASCII digit at or after its start, and finds none exactly when no digit follows |
| Day01.RFindDigitSpec | day01/src/main.rs:46 | the backward search returns the rightmost digit of its range, and none exactly when the range holds no digit |
| Day01.ReadLine1 | day01/src/main.rs:37-51 | a line reads exactly when it has a digit; a line without one is a `ParseError` ("No digit in input line") |
| Day01.ReadLine1Calibration | day01/src/main.rs:37-51 | reading succeeds iff some character is a digit, and the pair read (first digit; last digit strictly after it, or none) scores the line's intended value: ten times its first digit plus its last, a lone digit counting as both |
| Day01.Part1Calibration | day01/src/main.rs:119-131 | `part1` is the sum of the intended values of the lines (`10*first + last`, or `11*first` when there is no second digit) |
| Day01.Part1OfLines | day01/src/main.rs:34-56 | a document whose every line has a digit reads without error, and part 1 on it is the sum of the lines' intended values |
| Day01.SamplePart1 | day01/src/main.rs:181-186 | the four lines of the first example read and give 142 |
| Day01.ParseDigit | day01/src/main.rs:64-79 | every parsed digit is at most 9, and the only failure is the panic of an `unwrap` on a missing digit |
| Day01.ParseDigitChar | day01/src/main.rs:75 | a single digit character parses as its numeric value |
| Day01.WordsSpellDigits | day01/src/main.rs:64-74 | the k-th word of the regular expression ("one" .. "nine") parses as k+1 |
| Day01.WordsMirrored | day01/src/main.rs:85-86 | each alternative of the second regular expression is the corresponding word of the first spelled backwards |
| Day01.FirstDigitSpec | day01/src/main.rs:91-93 | the reference reading: the digit of the token (digit or word) that starts leftmost, none exactly when no token starts anywhere |
| Day01.LastDigitSpec | day01/src/main.rs:95-109 | the reference reading: the digit of the token that ends rightmost, none exactly when no token ends anywhere |
| Day01.FirstDigitLastDigit | day01/src/main.rs:91-105 | a line has a leftmost-starting token exactly when it has a rightmost-ending one, so the second search fails only when the first does |
| Day01.FindMatchFirst | day01/src/main.rs:91-93 | `find_iter(l).next()` finds a match exactly when some token starts at or after the search start |
| Day01.FindMatchFirstValue | day01/src/main.rs:91-111 | the first match parses to the digit of the leftmost token |
| Day01.StartsAtReversed | day01/src/main.rs:99 | a reversed word starts at index p of the reversed line exactly when the word ends at index \|l\|-p of the line |
| Day01.MatchAtReversed | day01/src/main.rs:99-102 | the reversed regular expression matches at p of the reversed line exactly when a token ends at \|l\|-p of the line |
| Day01.MatchAtReversedValue | day01/src/main.rs:99-111 | that match, turned back round, parses to the digit of the token ending there |
| Day01.FindMatchLast | day01/src/main.rs:99-105 | the search through the reversed line finds a match exactly when the line has a token ending at or before the matching position |
| Day01.FindMatchLastValue | day01/src/main.rs:99-111 | the match found in the reversed line, turned round, parses to the digit of the rightmost-ending token, overlaps included |
| Day01.ReadLine2Spec | day01/src/main.rs:88-111 | a line reads exactly when it holds a token; otherwise `ParseError`; the pair read is (digit of the leftmost-starting token, digit of the rightmost-ending token) |
| Day01.Part2Calibration | day01/src/main.rs:134-142 | `part2` is the sum over the lines of `10*first + last`, with the leftmost and the rightmost token |
| Day01.Part2OfLines | day01/src/main.rs:84-142 | a document whose every line has a token reads without error, and `part2` is the sum of `10*first + last` over the lines |
| Day01.Twone | day01/src/main.rs:95-98 | in "twone" the leftmost token is "two" and the rightmost-ending one is "one", so the line is worth 21 |
| Day02.PartialCmpSpec | day02/src/main.rs:34-46 | `a <= b` iff red, green and blue are each `<=`; `Equal` iff the draws are equal; `Less` iff below and different; `None` iff neither is below the other; swapping the operands reverses the answer |
| Day02.LeIsPartialOrder | day02/src/main.rs:34-46 | `<=` on draws is reflexive, antisymmetric and transitive |
| Day02.UnionIsJoin | day02/src/main.rs:55-61 | `union` is above both operands and below every common upper bound: the least upper bound |
| Day02.UnionLaws | day02/src/main.rs:55-61 | `union` is commutative, associative and idempotent |
| Day02.ContainsAll | day02/src/main.rs:49-53 | true exactly when every draw of the list is `<=` the bag; vacuously true for no draws |
| Day02.UnionAll | day02/src/main.rs:139 | `reduce(Draw::union)` gives a value exactly when there is a draw, and that value contains every draw |
| Day02.UnionAllLeast | day02/src/main.rs:139 | the union of the draws is below every bag that contains them all |
| Day02.PowerMonotone | day02/src/main.rs:63-65 | `power` (red * blue * green) never decreases when each count grows |
| Day02.FewestCubes | day02/src/main.rs:136-142 | the union of a game's draws is a bag that allows the game and has the least power of all such bags |
| Day02.ReadShownCubes | day02/src/main.rs:75-83 | an item " <count> <colour>" reads as that many cubes of a known colour, or as the unknown-colour `ParseError` |
| Day02.ReadCubesOf | day02/src/main.rs:75-84 | an item is split at its first space after trimming; a count that is not a number panics on `unwrap`, otherwise the colour decides |
| Day02.ReadDrawAppend | day02/src/main.rs:74-87 | reading "<a>,<b>" adds the cubes of both halves; the first failing half decides the error |
| Day02.UnknownColourFails | day02/src/main.rs:81-83 | an unknown colour name is `ParseError("unknown color")`, whatever follows |
| Day02.RepeatedColourAdds | day02/src/main.rs:78-80 | a colour named twice in one draw counts the sum of both counts |
| Day02.ReadShowDraw | day02/src/main.rs:71-88 | a draw written as "n red, n green, n blue" reads back as the same draw |
| Day02.ReadGameLine | day02/src/main.rs:102-115 | "Game <id>:<body>" reads as that id and the draws between the semicolons of the body, or the first draw's error |
| Day02.ReadGameHasDraws | day02/src/main.rs:108-111 | a line that reads has at least one draw (splitting never gives an empty list) |
| Day02.ReadShowGame | day02/src/main.rs:102-115 | a written game line reads back as the same id and draws |
| Day02.GamesOf | day02/src/main.rs:117 | the map's ids are exactly the ids of the lines, and each entry comes from some line |
| Day02.GamesOfLast | day02/src/main.rs:117 | for a repeated id the map keeps the draws of the last line with that id |
| Day02.GamesOfDistinct | day02/src/main.rs:117 | with distinct ids the map holds exactly the lines' entries, each once |
| Day02.ReadShowGames | day02/src/main.rs:99-123 | reading the written lines of a list of games gives the map built from that list |
| Day02.Part1OrderIndependent | day02/src/main.rs:126-134 | `part1` does not depend on the order in which the map is iterated |
| Day02.Part1OfDistinct | day02/src/main.rs:126-134 | with distinct ids, `part1` is the sum over the games of the id when (12, 13, 14) contains all draws, else 0 |
| Day02.Part2OrderIndependent | day02/src/main.rs:136-145 | `part2` does not depend on the iteration order, and succeeds exactly when every game has a draw |
| Day02.Part2Ok | day02/src/main.rs:139 | the `unwrap` of the reduction panics exactly when some game has no draw |
| Day02.ReadThenPart2 | day02/src/main.rs:99-145 | games read from text always have draws, so `part2` on them never panics |
| Day02.Part2OfDistinct | day02/src/main.rs:136-145 | with distinct ids, `part2` is the sum over the games of the power of the union of their draws |
| Day02.SamplePart1 | day02/src/main.rs:180 | on the example games part 1 is 8, in any iteration order |
| Day02.SamplePart2 | day02/src/main.rs:198 | on the example games part 2 is 2286, in any iteration order |
| Day03.CellsSpec | day03/src/main.rs:65-67 | `store_id(x, y, ..)` of a k-digit number fills exactly the cells (x-k .. x-1, y), each pointing at the new entry |
| Day03.Step | day03/src/main.rs:72-85 | the digits collected are always digits, and nothing is left collected after the last character of a line |
| Day03.ScanLines | day03/src/main.rs:70-86 | scanning whole lines never leaves digits collected between lines |
| Day03.StoreIdHolds | day03/src/main.rs:55-68 | storing a non-empty run of digits appends its number, unmarked, and its cells to what the data held |
| Day03.ScanNumberInside | day03/src/main.rs:75-84 | a number ended by a period or a symbol at column e is stored with x = e, after the symbol is recorded |
| Day03.ScanNumberAtEnd | day03/src/main.rs:77-84 | a number that ends the line is stored by its own last digit, with x = the last digit's column |
| Day03.ScanLineHolds | day03/src/main.rs:72-85 | scanning a line from outside a number adds that line's numbers, in order, to the data held |
| Day03.ScanLinesHolds | day03/src/main.rs:70-86 | scanning lines adds all their numbers in reading order |
| Day03.ReadHolds | day03/src/main.rs:48-89 | `Data::from_str` holds exactly the numbers of the schematic, in reading order, with their cells |
| Day03.CellMapOwner | day03/src/main.rs:65-67 | when the numbers do not overlap, each cell of a number points at that number's entry |
| Day03.CellMapBelongs | day03/src/main.rs:65-67 | every cell in `id_map` points at an entry whose number owns that cell |
| Day03.HeldNumbers | day03/src/main.rs:63-67 | data holding ordered numbers has one unmarked `(value, false)` entry per number, and cells and entries correspond both ways |
| Day03.ScanLineParts | day03/src/main.rs:73-81 | scanning a line records a part at (x, y) exactly for each character that is neither '.' nor a digit, with that character |
| Day03.ReadParts | day03/src/main.rs:70-86 | `parts` holds exactly the symbols of the schematic, each at its own column and line |
| Day03.ReadDescribes | day03/src/main.rs:48-89 | what `Data::from_str` reads describes the schematic: its numbers with their cells and its symbols |
| Day03.EndOfLineShift | day03/src/main.rs:65-78 | on the line "#.12" the number 12 owns column 1, not its last column 3, so it touches the `#` at column 0 |
| Day03.Block | day03/src/main.rs:108-109 | the loops over `xi` and `yi` visit nine positions, exactly those adjacent to (or at) the symbol |
| Day03.AroundSpec | day03/src/main.rs:107-110 | a cell is visited exactly when it is adjacent to one of the symbols |
| Day03.MarkCellsSpec | day03/src/main.rs:110-112 | marking keeps the values, and an entry ends up marked exactly when it was or some visited cell points at it |
| Day03.Part1Marks | day03/src/main.rs:106-120 | `part1` marks exactly the entries some symbol touches and sums the values of the marked ones |
| Day03.Part1OrderFree | day03/src/main.rs:107 | `part1` does not depend on the order in which the map hands out the symbols |
| Day03.TouchedIsPart | day03/src/main.rs:106-115 | an entry is marked exactly when its number has a cell in the 3×3 block around a symbol |
| Day03.Part1OfSchematic | day03/src/main.rs:106-121 | `part1` on a schematic adds up each part number (a number touching a symbol) exactly once, and nothing else |
| Day03.DedupSpec | day03/src/main.rs:139 | `dedup` of a sorted sequence keeps each of its values once, strictly increasing |
| Day03.SortDedupSpec | day03/src/main.rs:138-139 | `sort` then `dedup` keeps exactly the values of the buffer, strictly increasing |
| Day03.RatioRule | day03/src/main.rs:140 | the term of a gear is the product of its values when there are exactly two distinct ones, and 0 otherwise |
| Day03.ValuesInSpec | day03/src/main.rs:131-136 | the buffer holds a value exactly when some cell of the block points at an entry with that value |
| Day03.Part2OrderFree | day03/src/main.rs:126-127 | the corrected `part2` does not depend on the order of the symbols |
| Day03.ValuesAround | day03/src/main.rs:131-137 | around any position of a schematic, the distinct values seen are exactly those of the numbers touching it |
| Day03.GearOfSchematic | day03/src/main.rs:127-140 | a `*` adds the product of the two distinct values touching it when there are exactly two, otherwise 0; any other position adds nothing |
| Day03.Part2OfSchematic | day03/src/main.rs:123-143 | the corrected `part2` on a schematic is the sum over the `*`s of that gear rule |
| Day03.AsWrittenAgrees | day03/src/main.rs:124-140 | when every `*` sees no value or exactly two distinct ones, `part2` as written (the buffer carried over) equals the corrected one |
| Day03.ReadLeftover | day03/src/main.rs:48-89 | the schematic `2*.*3.` reads as the numbers 2 at column 0 and 3 at column 4, with `*` at columns 1 and 3 |
| Day03.Part2Leftover | day03/src/main.rs:124-140 | on the schematic `2*.*3.` as read, neither `*` is a gear, yet as written the 2 left in the buffer pairs with the 3: as written 6, corrected 0 |
| Day03.LineSymbolsSpec | day03/src/main.rs:73-81 | the symbol map built from one line holds exactly the line's symbols from the given column on, each with its character |
| Day03.GridSymbolsSpec | day03/src/main.rs:70-86 | the symbol map built from the lines holds a position exactly when its line holds a symbol there, with that character |
| Day03.ReadPartsGrid | day03/src/main.rs:48-89 | the `parts` map of `Data::from_str` is the symbol map of its lines |
| Day03.TouchesNear | day03/src/main.rs:107-110 | a number with digits has a cell in the 3×3 block around p exactly when p lies at most one line and one column outside its digits |
| Day03.NearAnySpec | day03/src/main.rs:107-110 | a number is near one of a list of positions exactly when some position of the list is near it |
| Day03.PartNumberNear | day03/src/main.rs:106-115 | when the symbols of a schematic are at the positions of a list, a number is a part number exactly when one of them is near it |
| Day03.PartValuesNear | day03/src/main.rs:117-119 | with the symbols at the positions of a list, the term each number adds to `part1` is its value when a symbol is near it, and 0 otherwise |
| Day03.SampleRead | day03/src/main.rs:48-89 | the ten lines of the example read as its ten numbers in reading order, with their cells, and its six symbols |
| Day03.SamplePart1 | day03/src/main.rs:186 | on the example `part1` gives 4361 in whatever order the map hands out the symbols: every number but 114 and 58 is a part number |
| Day03.NearValuesSpec | day03/src/main.rs:131-137 | a value is among those near p exactly when some number near p has it |
| Day03.TouchingNearValues | day03/src/main.rs:131-137 | for numbers with digits, the values touching p are the values near p |
| Day03.GearRulePair | day03/src/main.rs:140 | a gear with two distinct values a < b is worth a·b |
| Day03.GearRuleOne | day03/src/main.rs:140 | a gear with a single value is worth 0 |
| Day03.SamplePart2 | day03/src/main.rs:187 | on the example the corrected `part2` gives 467835 in any order of the symbols: 467·35 plus 755·598, the `*` next to 617 alone adding 0 |
| Day03.GearsInCount | day03/src/main.rs:126-127 | `filter_map` passes on each `*` of the symbols as often as it occurs, and nothing else |
| Day03.GearsInPermuted | day03/src/main.rs:126-127 | reordering the symbols reorders the `*`s passed on, and keeps them |
| Day03.AsWrittenSkips | day03/src/main.rs:126-127 | as written, symbols other than `*` change neither the buffer nor the sum |
| Day03.IncreasingCard | day03/src/main.rs:138-140 | after `sort` and `dedup`, the length `ids.len()` is the number of distinct values in the buffer |
| Day03.GearAsWritten | day03/src/main.rs:131-140 | as written, a `*` pools its values with the buffer; with exactly two distinct values in the pool it adds their product and empties the buffer, otherwise it adds 0 and keeps them all |
| Day03.DrainStep | day03/src/main.rs:138-140 | a `*` met with an empty buffer and two distinct values adds their product and leaves the buffer empty |
| Day03.KeepStep | day03/src/main.rs:138-140 | a `*` that does not bring the buffer to two distinct values adds 0 and leaves the pooled values in the buffer |
| Day03.LoneLast | day03/src/main.rs:123-143 | as written, three `*`s whose last has a single value add both pairs' products |
| Day03.LoneMiddle | day03/src/main.rs:123-143 | as written, a single value met between two pairs stays in the buffer and spoils the second pair: only the first product is added |
| Day03.LoneFirst | day03/src/main.rs:123-143 | as written, a single value met first spoils both pairs: the sum is 0 |
| Day03.ThreeArranged | day03/src/main.rs:126 | a sequence holding three distinct positions once each is one of their six arrangements |
| Day03.ArrangedAsWritten | day03/src/main.rs:123-143 | as written, with one lone-valued `*` and two pairs, the sum is both products, the first pair's product, or 0, as the lone `*` comes last, in the middle or first |
| Day03.SampleAsWritten | day03/src/main.rs:123-143 | as written, on the example the result depends on the map's order: 467835 when the `*` at (3, 4) next to 617 comes last, the first pair's product (16345 or 451490) when it comes second, and 0 when it comes first |
| Day03.SampleAsWrittenReadingOrder | day03/src/main.rs:123-143 | with the symbols in reading order, `part2` as written gives 16345 on the example where the corrected one gives 467835 |
| Day04.MatchingSpec | day04/src/main.rs:34-39 | the count is 0 exactly when none of your numbers wins, and is \|yours\| exactly when all of them do |
| Day04.MatchingAppend | day04/src/main.rs:34-39 | the count over two halves of your numbers is the sum of their counts, so a repeated winning number counts every time |
| Day04.MatchingPermuted | day04/src/main.rs:34-39 | the count depends only on the multiset of your numbers, not their order |
| Day04.Score | day04/src/main.rs:41-48 | a score is never negative and is 0 exactly when the card has no match |
| Day04.ScoreOfOneMore | day04/src/main.rs:41-48 | one more winning number turns 0 points into 1 and doubles any other score; a losing number changes nothing (the score is 2^(n-1)) |
| Day04.ReadShownByte | day04/src/main.rs:66-70 | a written number reads back when it fits in a `u8`, and panics on `unwrap` when it does not |
| Day04.ReadShowCard | day04/src/main.rs:62-72 | a line "Card <id>: <winning> \| <yours>" reads as the card with those winning numbers as a set and your numbers in order |
| Day04.ReadCardParts | day04/src/main.rs:63-72 | whatever precedes the colon is ignored; the halves either side of `\|` are read as whitespace-separated numbers |
| Day04.ReadShowCards | day04/src/main.rs:59-77 | written cards, one per line, are read back in order |
| Day04.Part1 | day04/src/main.rs:94-98 | `part1` gives one score per card, in card order, and their total |
| Day04.Part1Zero | day04/src/main.rs:94-98 | the total is never negative, and is 0 exactly when no card has a match |
| Day04.Part1Append | day04/src/main.rs:94-98 | totals and score lists add up over a pile of cards split in two |
| Day04.WonByStep | day04/src/main.rs:103-109 | card i's instances win one copy each of cards i+1 .. i+matches |
| Day04.WonBySettled | day04/src/main.rs:104 | cards at or after card j never add to it, so `count[j]` is final when card j is processed |
| Day04.AddCopies | day04/src/main.rs:105-109 | the inner loop adds `ci` to exactly the counts with index in `i+1 ..= i+matches` that exist, and leaves all others |
| Day04.Part2 | day04/src/main.rs:100-113 | the array loop returns the total number of card instances, as defined card by card from the copies won |
| Day04.TotalCardsAtLeast | day04/src/main.rs:101-108 | every card is held at least once; the total equals the number of cards exactly when no card before the last has a match (the last card's copies fall past the end and are dropped) |
| Day04.CopiesPrefix | day04/src/main.rs:105-108 | a card's instances depend only on the cards before it: cards added at the end change nothing earlier |
| Day04.TotalCardsAppend | day04/src/main.rs:100-112 | one more card keeps the earlier totals and adds its own instances |
| Day04.SampleRead | day04/src/main.rs:59-77 | the text of the six example cards reads back as those cards |
| Day04.SampleWins | day04/src/main.rs:34-39 | the example's cards have 4, 2, 2, 1, 0 and 0 matches |
| Day04.SamplePart1 | day04/src/main.rs:157-163 | on the example `part1` gives (13, [8, 2, 2, 1, 0, 0]) |
| Day04.SampleCopies | day04/src/main.rs:100-110 | the example's cards end up with 1, 2, 4, 8, 14 and 1 instances |
| Day04.SamplePart2 | day04/src/main.rs:164 | on the example the total number of cards is 30 |
| Day05.ParseInterval | day05/src/main.rs:40-53 | a map line with other than three tokens is `ParseError("incorrect range")`; with three numbers it is (destination start, source start, length) in that order; a non-number token panics on `unwrap` |
| Day05.ParseShowInterval | day05/src/main.rs:40-53 | an interval written as "dest src len" parses back to itself |
| Day05.ParseSeeds | day05/src/main.rs:122-130 | the seed line reads exactly when it exists and starts with "seeds: ", and then gives its whitespace-separated numbers in order; any failure is a panic |
| Day05.ParseMapBody | day05/src/main.rs:146-153 | a map block reads exactly when every line parses, giving one interval per line in order; any failure is a panic |
| Day05.GetFirstMatch | day05/src/main.rs:62-70 | `get` returns `dest + x - src` for the first interval with `src <= x < src + len`, and `x` itself when no interval contains it |
| Day05.FirstContainingSpec | day05/src/main.rs:63-67 | the interval `get` uses contains `x` and no earlier one does; none is found exactly when no interval contains `x` |
| Day05.GetByContaining | day05/src/main.rs:62-70 | with pairwise disjoint intervals, any interval that contains `x` decides `get` |
| Day05.NextStartSpec | day05/src/main.rs:79-83 | `next` is the smallest interval start strictly above the current start, or `usize::MAX` (none) when there is none |
| Day05.Piece | day05/src/main.rs:77-101 | every piece emitted has a positive length of at most what remains, so `remaining` strictly decreases and the loop ends |
| Day05.PieceInside | day05/src/main.rs:84-90 | a piece starting inside an interval maps to `dest + offset` and never runs past that interval's end |
| Day05.PieceOutside | day05/src/main.rs:79-98 | a piece starting outside every interval is emitted unchanged and stops at the next interval start, or at the end of the range |
| Day05.NextPiece | day05/src/main.rs:79-98 | one pass of the inner loop, with its `break` and `cur_len` flag, emits exactly the piece the reference definition gives |
| Day05.GetRange | day05/src/main.rs:72-107 | the loop emits the pieces of the range in order; their lengths sum exactly to `len` (the `assert_eq!` holds) and none is empty |
| Day05.PiecesLengths | day05/src/main.rs:104 | the piece lengths of any range sum to its length and every piece is non-empty |
| Day05.PiecesAgreeWithGet | day05/src/main.rs:62-98 | with disjoint intervals, the numbers the pieces cover are, in order, `get` of each number of the source range |
| Day05.Part1 | day05/src/main.rs:179-196 | `part1` succeeds exactly when there are seeds and maps; its set is exactly the seeds' locations and its first component is the least of them |
| Day05.SeedRanges | day05/src/main.rs:201 | `tuples()` pairs the seed numbers two by two as (start, length), dropping an odd last one |
| Day05.MapRangesCovered | day05/src/main.rs:207-213 | with disjoint intervals, splitting every range by a map covers exactly `get` of the numbers the ranges covered |
| Day05.ThroughChainCovered | day05/src/main.rs:202-214 | after the whole chain the ranges cover exactly the locations of the seed numbers, and none of them is empty |
| Day05.MinStartIsMinCovered | day05/src/main.rs:217-230 | the least range start is a covered number and no covered number is smaller |
| Day05.Part2IsClosestLocation | day05/src/main.rs:198-231 | with disjoint intervals `part2` succeeds exactly when there is a map and a seed number, and returns the least location of any seed in the seed ranges |
| Day05.SampleLocations | day05/src/main.rs:179-192 | the example's seeds 79, 14, 55 and 13 end up at locations 82, 43, 86 and 35 |
| Day05.SamplePart1 | day05/src/main.rs:275-281 | on the example `part1` gives (35, {82, 43, 86, 35}) |
| Day05.SamplePart2 | day05/src/main.rs:282 | on the example `part2` gives 46 |
| Day06.ReadNat | day06/src/main.rs:44-45 | a word that is not a number panics on the `unwrap` of the collected result |
| Day06.Zip | day06/src/main.rs:56 | `zip` pairs the i-th time with the i-th distance, as many races as the shorter list |
| Day06.Read | day06/src/main.rs:34-59 | the sheet reads exactly when it has two lines whose parts after the colon are numbers; the races pair times and distances by position |
| Day06.ReadShowLine | day06/src/main.rs:40-45 | a line "<caption>: n1 n2 ..." is a single line whose numbers read back |
| Day06.ReadShow | day06/src/main.rs:34-59 | a written sheet of races reads back as those races |
| Day06.ReadKernedLine | day06/src/main.rs:65-75 | the digits after the colon, spaces dropped, read as the numbers written next to each other |
| Day06.ReadKernedValue | day06/src/main.rs:71-75 | an empty line of digits panics on `parse().unwrap()`; otherwise the value is that of the kerned numbers |
| Day06.ReadPart2Show | day06/src/main.rs:62-89 | a written sheet with races reads for part 2 as one race: all times kerned into one time, all distances into one record; without races it panics |
| Day06.WinsBelowCounts | day06/src/main.rs:103-106 | the count of the filter is the number of charges below the bound whose distance beats the record |
| Day06.WinsCounts | day06/src/main.rs:103-106 | a race's count is the number of charges c in 0..=t with (t-c)*c > d |
| Day06.SampleWins | day06/src/main.rs:102-108 | the example's races have 4, 8 and 9 winning charges |
| Day06.Part1Sample | day06/src/main.rs:186-192 | the example sheet reads as its three races and `part1` gives (288, [4, 8, 9]) |
| Day06.ReachInterval | day06/src/main.rs:118-120 | the charges reaching a goal are exactly those between the two ends of an interval whose outer neighbours fall short |
| Day06.CountBetweenBounds | day06/src/main.rs:131-136 | when c1 and c2 win while c1-1 and c2+1 do not, then 0 < c1 <= c2 < t and `c2 - c1 + 1` is the number of winning charges |
| Day06.ReachingEnds | day06/src/main.rs:124-126 | when some charge reaches the record, the first and the last such charges are the ends of the reaching interval |
| Day06.BetweenRoots | day06/src/main.rs:118-124 | a charge reaches the record exactly when it lies between the two real roots of c² - t·c + d |
| Day06.LowerRootCeiling | day06/src/main.rs:124-125 | the first charge reaching the record is the ceiling of the lower root, the exact value of `(0.5 * t - x).ceil()` |
| Day06.UpperRootFloor | day06/src/main.rs:124-126 | the last charge reaching the record is the floor of the upper root, the exact value of `(0.5 * t + x).floor()` |
| Day06.Part2AsWrittenSpec | day06/src/main.rs:115-137 | `part2` as written succeeds exactly when some charge wins and no charge ties the record, and then returns the number of winning charges |
| Day06.Part2Counts | day06/src/main.rs:115-137 | the corrected part 2 (strict inequality for the bounds) is the number of winning charges for every race |
| Day06.Part2Agrees | day06/src/main.rs:131-136 | where no charge ties the record, as written and corrected agree, and both say there is no win when there is none |
| Day06.SampleLongRace | day06/src/main.rs:193 | the race (71530, 940200) has 71503 winning charges and `part2` as written returns 71503 |
| Day06.Part2Sample | day06/src/main.rs:193 | the example sheet reads for part 2 as the race (71530, 940200), and `part2` gives 71503 |
| Day06.Part2Tie | day06/src/main.rs:131 | the race (30, 200) has 9 winning charges but charges 10 and 20 tie the record, so as written the first assertion fails; corrected gives 9 |
| Day07.CompareTypes | day07/src/main.rs:27-36 | the derived order of `HandType` (by discriminant) ranks the types by poker strength and is equal only on equal types |
| Day07.TallyOfSpec | day07/src/main.rs:53-54 | counting the hand with `entry(..).or_insert(0) += 1` enters every card once with its number of occurrences, and nothing else |
| Day07.TallySum | day07/src/main.rs:53-54 | the counts are positive and add up to the number of cards |
| Day07.TallySize | day07/src/main.rs:53-54 | the map has one entry per distinct card |
| Day07.TallyMax | day07/src/main.rs:56 | the largest count is the size of the largest group of equal cards |
| Day07.ClassifyPermutation | day07/src/main.rs:56-75 | the type does not depend on the order in which the `HashMap` yields its counts, with or without jokers |
| Day07.ClassifyFiveCards | day07/src/main.rs:56-75 | on the counts of five cards the `match` gives the textbook type from the number of groups and the largest group |
| Day07.TypTotal | day07/src/main.rs:52-76 | `Hand::typ` never reaches `unreachable!()` or the `unwrap` panic on five cards |
| Day07.TypIsPokerType | day07/src/main.rs:52-76 | `Hand::typ` is the textbook poker type of the five cards |
| Day07.ClassifyWithoutJokers | day07/src/main.rs:87-139 | without a joker the joker table gives the same type as `Hand::typ` |
| Day07.ClassifyWithJokersTotal | day07/src/main.rs:87-139 | on the counts of five cards none of the `unreachable!()` arms of the joker table is taken |
| Day07.JokerTypTotal | day07/src/main.rs:83-140 | `HandWithJokers::typ` never panics on five cards |
| Day07.JokerTable | day07/src/main.rs:88-138 | with `j` jokers the table's answer equals the plain type after the jokers join the largest other group |
| Day07.JokerTypOfOthers | day07/src/main.rs:84-88 | the joker type is read off the other cards' counts followed by the joker count |
| Day07.JokersBecomeBestCard | day07/src/main.rs:79-140 | the claim in the comment: the joker type equals the plain type of the hand with every joker replaced by the most frequent other card |
| Day07.LexEqual | day07/src/main.rs:161 | the lexicographic comparison of the card arrays is `Equal` exactly on equal arrays |
| Day07.LexReverse | day07/src/main.rs:161 | swapping the arrays reverses the comparison |
| Day07.LexTransitive | day07/src/main.rs:161 | the lexicographic comparison is transitive |
| Day07.LexFirstDifference | day07/src/main.rs:161 | one array comes first exactly when it is smaller at the first position where the arrays differ |
| Day07.CompareHands | day07/src/main.rs:151-162 | hands compare by type first, then by cards; `Equal` exactly when the cards agree, as `eq` at 143-147 says |
| Day07.CompareHandsReverse | day07/src/main.rs:179-190 | the comparison of either hand kind is antisymmetric |
| Day07.CompareHandsTransitive | day07/src/main.rs:179-190 | the comparison of either hand kind is transitive, so `cmp` is a total order |
| Day07.LeAntisymmetric | day07/src/main.rs:143-147 | two hands below each other hold the same cards |
| Day07.HandOrder | day07/src/main.rs:165-169 | `Ord::cmp` gives a total, transitive order for `sort_unstable` |
| Day07.DistinctCardsNoTies | day07/src/main.rs:257 | hands with distinct cards never tie, so `sort_unstable` has one possible outcome |
| Day07.TotalWinningsOfRanking | day07/src/main.rs:256-272 | the winnings are the bids times the ranks of the unique strictly increasing arrangement of the hands |
| Day07.CardValue | day07/src/main.rs:206-214 | a card character decodes to 2..14 (jokers 1 in part 2) and back to itself; any other character panics with "invalid card" |
| Day07.CardValueOfChar | day07/src/main.rs:230-238 | every card value is decoded from its character |
| Day07.FillCardsSpec | day07/src/main.rs:204-216 | the loop stores each decoded character at its index; a bad character or an index past five panics, whichever comes first |
| Day07.ReadCardsSpec | day07/src/main.rs:204-216 | the array holds the decoded characters padded with zeros; more than five characters or a bad one panic |
| Day07.ParseBid | day07/src/main.rs:203 | `u32` parsing accepts decimal numbers below 2^32 |
| Day07.ReadHandSpec | day07/src/main.rs:201-219 | a line reads exactly when it splits at a space into readable cards and a bid; a missing space or a bad bid panics |
| Day07.ReadShowHand | day07/src/main.rs:226-242 | a written hand reads back as itself |
| Day07.ReadShowHands | day07/src/main.rs:199-245 | written lines of hands read back as those hands, in order |
| Day07.SamplePart1 | day07/src/main.rs:321 | the puzzle's example gives 6440 |
| Day07.SamplePart2 | day07/src/main.rs:322 | the puzzle's example with jokers gives 5905 |
| Day08.Unwrap | day08/src/main.rs:51-59 | `unwrap` gives the value or panics on `None` |
| Day08.NonEmpty | day08/src/main.rs:49 | the lines kept after `filter` are all non-empty |
| Day08.ToMap | day08/src/main.rs:66 | the map collected from the entries has exactly their names as keys |
| Day08.ToMapLast | day08/src/main.rs:66 | a name entered more than once keeps the successors of its last entry |
| Day08.ReadPart1 | day08/src/main.rs:40-69 | an input without a first line panics ("path missing"); otherwise the path is the first line |
| Day08.TrimName | day08/src/main.rs:62-63 | trimming a padded node name gives the name |
| Day08.ReadSuccessorsOf | day08/src/main.rs:52-59 | trim, strip `(`, strip `)` and split at `,` in turn give the two trimmed successors |
| Day08.ReadShowSuccessors | day08/src/main.rs:52-63 | the text ` (L, R)` reads back as the pair (L, R) |
| Day08.ReadShowNode | day08/src/main.rs:50-65 | a written line `X = (L, R)` reads back as its entry |
| Day08.ShowNodesRead | day08/src/main.rs:50-65 | written node lines read back as their entries, in order |
| Day08.ShowLines | day08/src/main.rs:41-49 | a written network splits into the path, a blank line the filter drops, and the node lines |
| Day08.ReadShow | day08/src/main.rs:40-69 | a written network reads back as its path and the map of its entries |
| Day08.Step | day08/src/main.rs:76-81 | a node missing from the map panics "incomplete network map"; a path character other than `L`/`R`, or an empty path, panics "Invalid path" |
| Day08.Part1 | day08/src/main.rs:71-85 | the loop stops with the number of the first step that reaches `ZZZ`, or with the panic of the step that failed, or runs past the bound without arriving |
| Day08.ArrivesOnce | day08/src/main.rs:75 | the loop condition picks a unique answer: the first arrival |
| Day08.StepPhase | day08/src/main.rs:74 | `cycle()` makes step `k` and step `k + p` follow the same direction when `p` is a multiple of the path length |
| Day08.WalkNext | day08/src/main.rs:75-83 | the walk advances by one step unless it has already panicked |
| Day08.RepeatStep | day08/src/main.rs:74-82 | two positions at the same node and the same point of the path take the same next step |
| Day08.WalkRepeats | day08/src/main.rs:74-83 | once the walk is back at a node after whole passes of the path, it repeats forever |
| Day08.NeverArrives | day08/src/main.rs:75-83 | a walk that repeats without reaching `ZZZ` never reaches it, so the loop runs forever |
| Day08.LetterName | day08/src/main.rs:51-63 | three upper-case letters are a name that reads back through the trims and splits |
| Day08.Sample1 | day08/src/main.rs:207 | the first example network reads back and reaches `ZZZ` after 2 steps |
| Day08.Sample2 | day08/src/main.rs:208 | the second example network reads back and reaches `ZZZ` after 6 steps |
| Day09.ReadInt | day09/src/main.rs:39 | a word that is not an `i64` numeral panics on `unwrap` |
| Day09.ReadShowInt | day09/src/main.rs:39 | a reading written in decimal, negative or not, parses back as itself |
| Day09.ReadShowHistory | day09/src/main.rs:37-41 | a history written as one line reads back as itself |
| Day09.ReadShowHistories | day09/src/main.rs:35-44 | any list of histories written one per line reads back as itself |
| Day09.Differences | day09/src/main.rs:51-54 | `tuple_windows` gives one difference fewer than readings |
| Day09.DifferencesSpec | day09/src/main.rs:51-54 | entry `i` of the differences is reading `i + 1` minus reading `i` |
| Day09.Extrapolate | day09/src/main.rs:46-60 | the extrapolation succeeds exactly on non-empty rows; an empty row panics on `unwrap` |
| Day09.ExtrapolateStep | day09/src/main.rs:55-58 | a non-constant row extends by its first reading minus the differences' front and its last plus their back |
| Day09.ExtrapolateConstant | day09/src/main.rs:47-49 | a constant row extrapolates to its value on both sides |
| Day09.ExtrapolateProgression | day09/src/main.rs:46-60 | an arithmetic progression extends by one step on either side |
| Day09.AllEqualReverse | day09/src/main.rs:47 | whether a row is constant does not depend on its direction |
| Day09.DifferencesReverse | day09/src/main.rs:51-54 | the differences of a reversed row are the reversed differences negated |
| Day09.ExtrapolateShift | day09/src/main.rs:46-60 | adding a constant to every reading adds it to both extrapolations |
| Day09.ExtrapolateNegate | day09/src/main.rs:46-60 | negating every reading negates both extrapolations |
| Day09.ExtrapolateReverse | day09/src/main.rs:46-60 | reading a row backwards swaps the previous and the next reading |
| Day09.Part1 | day09/src/main.rs:62-71 | the list holds the next reading of every history, in order, and the total is its sum; an empty history panics |
| Day09.Part2 | day09/src/main.rs:73-82 | the list holds the previous reading of every history, in order, and the total is its sum; an empty history panics |
| Day09.Part2IsPart1Reversed | day09/src/main.rs:62-82 | part 2 is part 1 on the histories read backwards |
| Day09.Part1Append | day09/src/main.rs:65-69 | more histories append their extrapolations and add to the total |
| Day09.SamplePart1 | day09/src/main.rs:130 | the example's histories give (114, [18, 28, 68]) |
| Day09.SamplePart2 | day09/src/main.rs:131 | the example's histories give (2, [-3, 0, 5]) |
| Text.SplitOnce | day07/src/main.rs:202 | `split_once` finds the first separator: `None` exactly when it is absent, otherwise the text before it and after it |
| Text.LinesUnlines | day09/src/main.rs:36 | `lines()` of lines joined with line feeds gives the lines back |
| Text.SplitWhitespaceUnwords | day09/src/main.rs:38 | `split_ascii_whitespace` of words joined with spaces gives the words back |
| Text.Trim | day08/src/main.rs:53 | `trim` removes exactly the leading and trailing whitespace |
| Wrappers.MapAll | day09/src/main.rs:36-43 | mapping every line succeeds exactly when every line does; otherwise the first panicking line's panic is the result |
| Sorting.Sort | day07/src/main.rs:257 | the sorted hands are a sorted permutation of the input |
| Sorting.SortedArrangementUnique | day07/src/main.rs:257 | with a total order and no ties, a sorted permutation is unique, so `sort_unstable` has one outcome |

## Left out

- File input and output: `main`, `load_input`, `FromFile::from_file`, the
  `IOError` and `NotYetSolved` variants, and `dbg!` output. They only load
  text and print.
- The `data/test*.txt` files are not part of this model. The examples are
  restated from the puzzle statements, as described at the top.
- Day01.ReadLine2Spec: the part-2 example total (281) is not proved. It is
  stated on one line only (`Day01.Twone`), because the literal word matching
  is too costly for the verifier across all seven lines.
- Integer widths: `usize`, `u64`, `u32` and `i64` overflow are not modelled,
  and the arithmetic is on unbounded integers. Two cases are modelled: the
  `u8` numbers of Day 4 and the `u32` bids of Day 7, whose parsing rejects
  values that do not fit. Day 3's `u32` numbers and its `u32` part 2 are
  among those left unbounded (next two lines).
- Day03.ReadHolds: numbers of the schematic are unbounded. The source parses
  each run of digits with `parse::<u32>().unwrap()` (day03/src/main.rs:62),
  which panics on a run worth 2^32 or more; `Day03.StoreIdHolds` and
  `Day03.ReadDescribes` likewise store such a number unchanged.
- Day03.Part2OfSchematic: the gear products and their sum are unbounded. The
  source computes them in `u32` (day03/src/main.rs:123 and 140-142), so a
  product or a sum of 2^32 or more overflows there (a panic in a debug build,
  wrap-around in a release build); `Day03.Part2Leftover`,
  `Day03.SamplePart2` and `Day03.SampleAsWritten` are stated on values far
  below that bound.
- Day06.Part2AsWrittenSpec: `f64` rounding is not modelled. The roots are
  exact reals, which matches `f64` only while the numbers stay well below
  2^53.
- The `regex` crate internals. Day 1 is modelled as an explicit scan for the
  tokens `one`…`nine` and `0`…`9`. The Day 5 header regex and its
  `ParseError("not a map")` are replaced by the resolved chain.
- Day 8 `part2` and `part2_brute_force`: unfinished code driven by `dbg!`,
  outside the modelled core.
- `skeleton/src/main.rs`: a template whose parts only return `NotYetSolved`.
- Day08.Part1: runs at most `fuel` steps, because the source loop need not
  terminate. `Day08.NeverArrives` gives a sufficient condition for a walk
  never to end.
- Day07.TotalWinningsOfRanking: stated only when the hands can be arranged
  in strictly increasing order. With two hands holding the same cards, the
  result of `sort_unstable`, and hence the winnings, depends on an order
  Rust leaves unspecified.
- Day03.Part1: requires the id map to point into the id list (`WellFormed`),
  so the index panic on a malformed `Data` is not modelled. Every schematic
  read by `Data::from_str` meets it (`Day03.ReadDescribes`).
- Day03.Part2: the same `WellFormed` requirement as `Day03.Part1`.
- Text.Trim: strips ASCII whitespace only, where Rust's `trim` also strips
  other Unicode white space. Puzzle inputs are ASCII.

## Findings

| source | as written | input that shows it | evidently intended | confidence | as-written member | corrected member |
|---|---|---|---|---|---|---|
| day03/src/main.rs:124-140 | `ids` is one buffer for all gears and is emptied only by `drain` when a gear has exactly two values, so the values around a rejected gear stay in it and count for the next gear | the line `2*.*3.`: the first `*` touches only 2, the second only 3, so the second sees [2, 3] and adds 6 | each `*` adds the product of the numbers around it when there are exactly two, so this line gives 0 | not executed | Day03.Part2Leftover | Day03.Part2OfSchematic |
| day03/src/main.rs:123-143 | the same carried-over buffer makes the result depend on the order in which the `HashMap` hands out the symbols | the puzzle's example with its symbols in reading order: the `*` next to 617 alone leaves 617 in the buffer, which spoils the gear 755·598, so the result is 16345 | 467835, the answer the test at day03/src/main.rs:187 expects | not executed | Day03.SampleAsWrittenReadingOrder | Day03.SamplePart2 |
| day06/src/main.rs:124-136 | when `time * time / 4 - distance` is a perfect square, the roots are whole numbers and `c1` is a charge that only ties the record, so `assert!((t - c1) * c1 > distance)` panics | the race with time 30 and record 200 (charges 10 and 20 tie; 9 charges win) | count the charges that beat the record, here 9 | not executed | Day06.Part2Tie | Day06.Part2Counts |
