# Advent of Code puzzle solvers, modelled in Dafny

This project models the puzzle-solving cores of a collection of Advent of Code solutions (the
2023 puzzles and the first four of 2024). Each solution is a short script. It reads a puzzle
input, builds a small data structure from it (a grid, a network of modules, a rule engine, a
list of reports), and computes one number. The model keeps that core logic and states what
each piece of it promises.

There is one Dafny module per source file:

| module | file | models |
|---|---|---|
| `Trebuchet` | `day01_trebuchet.dfy` | first and last digits of a line, digit words included |
| `CubeGame` | `day02_cube_game.dfy` | parsing games of cube samples, possibility and minimal supply |
| `Schematic`, `Gears` | `day03_schematic.dfy`, `day03_gears.dfy` | digit runs and the symbols around them; gear ratios |
| `Scratchcards` | `day04_scratchcards.dfy` | card scores and the copy propagation of part 2 |
| `SparseMaps` | `day05_sparse_map.dfy` | the sorted range map with binary-search lookup |
| `BoatRaces` | `day06_boat_races.dfy` | counting the winning button times of a race |
| `CamelCards` | `day07_camel_cards.dfy` | card order, hand types, hand order and winnings |
| `Wasteland`, `Lcm` | `day08_wasteland.dfy`, `lcm.dfy` | left/right walks over a node network; gcd and lcm of lists |
| `Extrapolation` | `day09_extrapolate.dfy` | finite-difference extrapolation, forwards and backwards |
| `Pipes` | `day10_pipes.dfy` | the pipe grid, the loop through the start, and the inside/outside fill |
| `Universe` | `day11_universe.dfy` | galaxy expansion and the sum of pairwise distances |
| `Springs` | `day12_springs.dfy` | counting spring arrangements by in-place backtracking |
| `Mirrors` | `day13_mirrors.dfy` | mirror lines with and without a smudge |
| `Rocks` | `day14_rocks.dfy` | tilting, spin cycles, load, and Floyd's cycle detection |
| `AsciiHash`, `LensLibrary` | `day15_lens_library.dfy` | the HASH function and the 256 lens boxes |
| `Beams` | `day16_beams.dfy` | beams through mirrors and splitters, and the energized cells |
| `Crucible` | `day17_crucible.dfy` | the least-heat-loss search with at most three steps in a row |
| `Workflows` | `day19_workflows.dfy` | the workflow engine that accepts or rejects parts |
| `PulseNetwork` | `day20_pulse_network.dfy` | flip-flops, conjunctions and the pulse queue |
| `StepCounter` | `day21_step_counter.dfy` | one step of the garden walk over a grid, the search for the start (`find_all`, `find_only`: `StepCounter.FindAllContents`, `StepCounter.FindOnlyIff`) and the `steps` driver (`StepCounter.Walk`, `StepCounter.CountPlots`) |
| `LongWalk` | `day23_long_walk.dfy` | the backtracking search for the longest hike |
| `LocationLists` | `y2024_day01_location_lists.dfy` | list distance and similarity score |
| `Reports` | `y2024_day02_reports.dfy` | report safety, with and without the problem dampener |
| `MulScanner` | `y2024_day03_mul_scanner.dfy` | the `mul`/`do()`/`don't()` scanner |
| `WordSearch` | `y2024_day04_word_search.dfy` | XMAS and X-MAS counting |

Four shared modules stand for Python built-ins: `Wrappers` (`Option` and `Result`; a Python
exception becomes a `Failure` carrying its message), `Results` (mapping a parser over a list),
`Sorting` (a stable insertion sort for `sorted` and `list.sort`), and `Text` (`str.split`,
`int`, `str`).

The model follows the sources' own form:
- Objects whose fields change become classes with `modifies` clauses: the day 20 network, the
  day 10 and day 16 grids, the day 15 boxes and the day 23 path finder.
- Loops become methods with invariants. Each method is proved against a specification
  function, and the properties are proved about that function.
- Python exceptions are explicit `Failure` results. Loops that the source does not guarantee to
  end take a `fuel` bound.

## Model

| member | source | states |
|---|---|---|
| `Trebuchet.MatchFrom` | 2023/day1-trebuchet/extract.py:25 | the alternation matches at a position iff some key is a prefix there, and then yields that key's digit |
| `Trebuchet.MatchAt` | 2023/day1-trebuchet/extract.py:4-25 | when no key stands for 0, whatever the pattern matches is a digit 1-9 |
| `Trebuchet.Spelled` | 2023/day1-trebuchet/extract.py:27-35 | the digits `replaceWords` emits, one per position where a key starts; all are 1-9 when no key stands for 0 |
| `Trebuchet.Search` | 2023/day1-trebuchet/extract.py:29 | `re.search` finds the leftmost position where a key matches, with no match before it, or reports that none matches anywhere |
| `Trebuchet.SpelledSkip` | 2023/day1-trebuchet/extract.py:29-34 | positions where nothing matches contribute nothing to the result |
| `Trebuchet.ReplaceWords` | 2023/day1-trebuchet/extract.py:27-35 | the loop, which resumes one character after each match start (so overlapping words such as `oneight` both count), returns `Spelled` |
| `Trebuchet.DigitWordsNonZero` | 2023/day1-trebuchet/extract.py:4-23 | every key of `digitWords` stands for a digit 1-9 |
| `Trebuchet.DigitsOf` | 2023/day1-trebuchet/extract.py:42 | the kept characters are all digits, and none is kept iff the line has no digit |
| `Trebuchet.ExtractDigits` | 2023/day1-trebuchet/extract.py:37-50 | succeeds iff the line has a digit (`digits[0]` raises IndexError otherwise), giving a value below 100 |
| `Trebuchet.SingleDigit` | 2023/day1-trebuchet/extract.py:46-47 | a lone digit is both the first and the last: `7` gives 77 |
| `Trebuchet.DigitsOfAppend` | 2023/day1-trebuchet/extract.py:42 | the comprehension keeps the digits in their order: the digits of `a + b` are those of `a` followed by those of `b` |
| `Trebuchet.FirstDigit` | 2023/day1-trebuchet/extract.py:42-46 | `digits[0]` is the line's first digit |
| `Trebuchet.LastDigit` | 2023/day1-trebuchet/extract.py:42-47 | `digits[-1]` is the line's last digit |
| `Trebuchet.FirstAndLast` | 2023/day1-trebuchet/extract.py:37-50 | the calibration value is ten times the line's first digit plus its last digit |
| `Trebuchet.NonZeroDigitsOf` | 2023/day1-trebuchet/extract.py:42 | filtering a string of digits keeps it whole |
| `Trebuchet.CalibrationRange` | 2023/day1-trebuchet/extract.py:53-55 | a line with any match gives a calibration value in 11..99 that does not end in 0 |
| `CubeGame.TrimStart` | 2023/day2/game.py:16 | the `\s*` before a separator: a suffix of the text with no leading space, everything removed before it being spaces |
| `CubeGame.TrimEnd` | 2023/day2/game.py:16 | the `\s*` after a separator: a prefix of the text with no trailing space, everything removed after it being spaces |
| `CubeGame.SplitAround` | 2023/day2/game.py:16 | `re.split("\s*,\s*", ...)` gives one piece per separator-delimited field |
| `CubeGame.SplitRuns` | 2023/day2/game.py:18 | `re.split("\s+", ...)` always gives at least one piece |
| `CubeGame.SplitRunsOfTwo` | 2023/day2/game.py:18 | `"<count> <colour>"` splits back into the count and the colour |
| `CubeGame.Assign` | 2023/day2/game.py:15-19 | the counts dictionary keeps the three initial colours whatever the entries |
| `CubeGame.ParseSample` | 2023/day2/game.py:13-20 | `Sample.parse`'s loop computes `SampleOf`, failing on a non-integer count or a missing colour |
| `CubeGame.AssignStep` | 2023/day2/game.py:17-19 | each piece overwrites the count of its colour |
| `CubeGame.Unmentioned` | 2023/day2/game.py:15 | a colour no piece names keeps its initial count 0 |
| `CubeGame.LastMention` | 2023/day2/game.py:17-19 | the last piece naming a colour sets its count |
| `CubeGame.CountedColours` | 2023/day2/game.py:15-20 | each colour of the parsed sample is the count of the last piece naming it, and 0 when none does |
| `CubeGame.FormatRoundTrip` | 2023/day2/game.py:10-20 | `Sample.parse(str(s))` gives `s` back for non-negative counts |
| `CubeGame.FormatEntries` | 2023/day2/game.py:10-11 | each piece `str` writes reads back as its colour and count |
| `CubeGame.FormatPieces` | 2023/day2/game.py:10-16 | the comma split of `str(s)` is its three pieces |
| `CubeGame.SplitAroundThree` | 2023/day2/game.py:16 | three pieces joined by `", "` come apart again |
| `CubeGame.SplitThree` | 2023/day2/game.py:16 | three pieces without the separator, joined by it, split back into themselves |
| `CubeGame.AssignThree` | 2023/day2/game.py:15-20 | the red, green and blue pieces in that order give the sample of those counts |
| `CubeGame.ColourEntry` | 2023/day2/game.py:18-19 | `"<n> <colour>"` reads as the entry `(colour, n)` |
| `CubeGame.PossibleWith` | 2023/day2/game.py:22-27 | `possibleWith`: every colour count at most the supply's; its meaning for the maximum and for games is stated by `CubeGame.MaxLeastUpperBound`, `CubeGame.GamePossibleWith` and `CubeGame.PossibleIffMinSupply` |
| `CubeGame.Max` | 2023/day2/game.py:29-35 | `Sample.max`, the colour-by-colour maximum; `CubeGame.MaxCommutative`, `CubeGame.MaxAssociative`, `CubeGame.MaxIdempotent` and `CubeGame.MaxLeastUpperBound` state that it is the least upper bound |
| `CubeGame.MaxCommutative` | 2023/day2/game.py:29-35 | `Sample.max` is commutative |
| `CubeGame.MaxAssociative` | 2023/day2/game.py:29-35 | `Sample.max` is associative, so the `reduce` order does not matter |
| `CubeGame.MaxIdempotent` | 2023/day2/game.py:29-35 | `Sample.max(a, a) == a` |
| `CubeGame.MaxLeastUpperBound` | 2023/day2/game.py:22-35 | both samples are possible with their maximum, and a supply fits the maximum iff it fits both |
| `CubeGame.Power` | 2023/day2/game.py:37-38 | `power`, the product of the three counts; `CubeGame.PowerMonotone` states that a larger supply has at least the power |
| `CubeGame.PowerMonotone` | 2023/day2/game.py:37-38 | a supply that a sample of non-negative counts is possible with has at least its power |
| `CubeGame.FirstNumber` | 2023/day2/game.py:52 | `re.search("\d+", ...)` finds nothing (the `.group()` AttributeError) iff the text has no digit |
| `CubeGame.GameNumber` | 2023/day2/game.py:50-52 | the number read from `Game <n>` is `n` |
| `CubeGame.SkipNonDigits` | 2023/day2/game.py:52 | characters before the first digit are passed over |
| `CubeGame.ParseGame` | 2023/day2/game.py:48-54 | `Game.parse` fails exactly when the text before the colon has no digit or there is no colon, and never on a sample, since `map` parses nothing yet; a parsed game has at least one sample text |
| `CubeGame.Samples` | 2023/day2/game.py:53 | a whole traversal of the `map` gives one sample per text, or the first parse error |
| `CubeGame.GamePossibleWith` | 2023/day2/game.py:56-60 | `Game.possibleWith` parses each sample when its loop reaches it, and returns `PossibleFrom`, the lazy traversal that stops at the first sample that does not fit |
| `CubeGame.PossibleWhenParsed` | 2023/day2/game.py:53-60 | when every sample parses, `possibleWith` is true exactly when every sample is possible with the supply |
| `CubeGame.StopsAtImpossible` | 2023/day2/game.py:53-60 | a game is impossible as soon as a parsed sample does not fit, whatever the samples after it hold, malformed ones included |
| `CubeGame.RaisesAtUnparsed` | 2023/day2/game.py:53-60 | `possibleWith` raises the error of the first malformed sample only when every sample before it fits |
| `CubeGame.LazyParse` | 2023/day2/game.py:53-60 | on `20 red; x red` with the supply 12 red, 13 green, 14 blue, `possibleWith` returns False without parsing `x red`, while a whole traversal raises on it |
| `CubeGame.TwentyRed` | 2023/day2/game.py:14-20 | `Sample.parse("20 red")` is 20 red, 0 green, 0 blue |
| `CubeGame.NotACount` | 2023/day2/game.py:19 | `Sample.parse("x red")` raises, since `int("x")` is a ValueError |
| `CubeGame.FoldLeast` | 2023/day2/game.py:62-63 | the `reduce` of `Sample.max` is the least supply all samples fit: a supply fits all the samples iff it is at least the fold |
| `CubeGame.MinSupply` | 2023/day2/game.py:62-63 | `minSupply`, the `reduce` of `Sample.max`, which traverses every sample: it succeeds only when every sample parses and there is at least one; `CubeGame.MinSupplyFits` and `CubeGame.PossibleIffMinSupply` state that it is the least supply the game is possible with |
| `CubeGame.MinSupplyFits` | 2023/day2/game.py:62-63 | every sample of the game is possible with its minimum supply |
| `CubeGame.PossibleIffMinSupply` | 2023/day2/game.py:56-63 | when `minSupply` succeeds, `possibleWith` of a supply returns whether the minimum supply fits it |
| `Schematic.Clamp` | 2023/day03/schema.py:19-22 | `Range.clamp` on a number: the nearest point of `[start, end - 1]`, the number itself when inside, and `start` when the range is empty |
| `Schematic.ClampRange` | 2023/day03/schema.py:19-21 | `Range.clamp` on a range clamps its first and its last point separately |
| `Schematic.ClampRangeOverlap` | 2023/day03/schema.py:19-22 | clamping a range to a line it overlaps gives their intersection; one wholly right of the line collapses onto the last column |
| `Schematic.SliceIndex` | 2023/day03/schema.py:53 | a slice bound, negative ones counted from the end, lies in `[0, n]` |
| `Schematic.Slice` | 2023/day03/schema.py:53 | Python's `s[a:b]` is the part of `s` between the normalised bounds, empty when they cross |
| `Schematic.SymbolsUpToContents` | 2023/day03/schema.py:54-57 | the symbols collected are exactly the characters other than `.` and digits, at their index plus the offset, in column order |
| `Schematic.FindAll` | 2023/day03/schema.py:50-59 | `Symbol.findAll`'s loop returns the symbols of the sliced line placed back on the line (`FindAllSpec`) |
| `Schematic.FindAllInRange` | 2023/day03/schema.py:50-59 | for a range starting at column 0 or later, `findAll` lists exactly the symbol characters of the columns `start .. end - 1`, in column order |
| `Schematic.RunEnd` | 2023/day03/schema.py:105 | the digit run starting at `i` ends at the first non-digit or the end of the line |
| `Schematic.RunsFromMaximal` | 2023/day03/schema.py:105 | the runs from a column that cuts no run are maximal, separated, and cover every digit from that column on |
| `Schematic.RunCons` | 2023/day03/schema.py:105 | a maximal run followed by the runs after it keeps maximality, order and coverage |
| `Schematic.DigitRunsMaximal` | 2023/day03/schema.py:105 | `re.finditer("\d+", line)` finds every maximal digit run, each once, left to right |
| `Schematic.RunMaximal` | 2023/day03/schema.py:105-106 | each run `finditer` yields is a maximal digit run |
| `Schematic.Window` | 2023/day03/schema.py:115-130 | the corrected window: the part of `matchRange` that lies on the line (see Findings) |
| `Schematic.WindowMembers` | 2023/day03/schema.py:115-130 | searching the corrected window finds exactly the symbols of that line between the column before the run and the column after it |
| `Schematic.PieceMembers` | 2023/day03/schema.py:118-130 | the symbols one line's search contributes are exactly that line's symbols beside the run |
| `Schematic.AdjacentTouches` | 2023/day03/schema.py:113-132 | with the corrected window, `adjacentSymbols` finds exactly the symbols touching the run: on its line or a neighbouring one, from the column before it to the column after |
| `Schematic.AsWrittenOnRectangular` | 2023/day03/schema.py:113-132 | on a rectangular schematic, for a run on its line, the window as written and the corrected one give the same symbols |
| `Schematic.AsWrittenLastLine` | 2023/day03/schema.py:118-130 | on the last line (not the first) the search as written covers the line above and the line itself |
| `Schematic.RaggedWindow` | 2023/day03/schema.py:120 | as written, the window above the `5` of `#` over `..5` is clamped to column 0 |
| `Schematic.HashFound` | 2023/day03/schema.py:50-59 | `findAll` of `#` over column 0 finds the `#` |
| `Schematic.RaggedClamped` | 2023/day03/schema.py:117-130 | as written, `adjacentSymbols` reports the `#` of `#` over `..5` as adjacent to the `5` |
| `Schematic.RaggedUntouched` | 2023/day03/schema.py:113-132 | nothing in `#` over `..5` touches the `5` |
| `Schematic.RaggedLineAsWritten` | 2023/day03/schema.py:113-132 | the as-written search reports the `#` two columns away, the corrected search reports nothing, and nothing touches the `5` |
| `Schematic.Candidates` | 2023/day03/schema.py:105-110 | one candidate part number per digit run of the line |
| `Schematic.KeepMembers` | 2023/day03/schema.py:109-110 | a part number is kept iff it is a candidate with at least one adjacent symbol |
| `Schematic.KeepPrefix` | 2023/day03/schema.py:106-110 | each run appends its part number exactly when it has a symbol |
| `Schematic.PartsListed` | 2023/day03/schema.py:101-111 | every candidate with a symbol, from any line, is listed |
| `Schematic.PartsSource` | 2023/day03/schema.py:101-111 | every listed part number has a symbol and comes from a run of some line |
| `Schematic.PartsPrefix` | 2023/day03/schema.py:103-110 | each line appends its kept part numbers, in order |
| `Schematic.AllCandidates` | 2023/day03/schema.py:103 | one list of candidates per line |
| `Schematic.AdjacentSymbols` | 2023/day03/schema.py:113-132 | `adjacentSymbols` with the corrected window returns `Adjacent`, the symbols touching the run |
| `Schematic.RunPart` | 2023/day03/schema.py:106-110 | the loop body makes the run's value and its symbols into the candidate part number |
| `Schematic.LinePartNumbers` | 2023/day03/schema.py:105-110 | the inner loop keeps exactly the candidates with a symbol, in order |
| `Schematic.PartNumbers` | 2023/day03/schema.py:101-111 | `partNumbers` (using the corrected window) returns the kept candidates of every line in order |
| `Schematic.PartNumberIff` | 2023/day03/schema.py:101-132 | a maximal digit run's part number is listed iff some symbol touches it, with the corrected window |
| `Gears.Ratio` | 2023/day03/schema.py:83-84 | `Gear.ratio`, the product of the gear's two part numbers; `Gears.RatioSymmetric` states that the filing order does not matter |
| `Gears.RatioSymmetric` | 2023/day03/schema.py:83-84 | the ratio does not depend on which part number was filed first |
| `Gears.IncidencesOf` | 2023/day03/schema.py:137-138 | one (symbol, part) pair per symbol of the part number |
| `Gears.IncidencesMembers` | 2023/day03/schema.py:136-138 | the nested loops visit symbol `y` with part `p` exactly when `p` is listed and `y` is one of its symbols |
| `Gears.PartsAtSnoc` | 2023/day03/schema.py:138 | each visit appends the part to the list of its own symbol only |
| `Gears.PartsAtMembers` | 2023/day03/schema.py:138 | a part is filed under `y` exactly when the loops visit the pair |
| `Gears.KeyIndex` | 2023/day03/schema.py:138 | the lookup finds the first entry with key `y`, or reports none |
| `Gears.XrefSnoc` | 2023/day03/schema.py:136-138 | the dictionary after one more visit is the `setdefault(...).append(...)` of that visit |
| `Gears.FiledKeyed` | 2023/day03/schema.py:138 | anything filed under `y` makes `y` a key |
| `Gears.AddIndexes` | 2023/day03/schema.py:138 | one `setdefault(...).append(...)` keeps the dictionary in step with the visits: keys once each, lists in visiting order |
| `Gears.XrefIndexes` | 2023/day03/schema.py:135-138 | the dictionary the loops build indexes every visit |
| `Gears.XrefLookup` | 2023/day03/schema.py:135-143 | `partSymbolXref[y]` is exactly what was filed under `y`, in order, and `y` is a key iff something was filed under it |
| `Gears.GearsOfMembers` | 2023/day03/schema.py:140-146 | a gear is listed iff some key is a `*` with exactly two parts, and the gear is those two |
| `Gears.GearIff` | 2023/day03/schema.py:134-147 | `gears` lists a gear exactly for each `*` filed with exactly two part numbers, as that pair in filing order |
| `Gears.PrefixSnoc` | 2023/day03/schema.py:137 | one more symbol extends the visited prefix by that symbol |
| `Gears.FilePart` | 2023/day03/schema.py:137-138 | the inner loop files the part under each of its symbols (`XrefOf` of the extended visits) |
| `Gears.GearsFrom` | 2023/day03/schema.py:135-147 | the dictionary loop and the pass over its keys give `GearsOf` of the filed dictionary |
| `Gears.SchematicGears` | 2023/day3/gears.py:4-6 | `gears` on a schematic uses the part numbers `partNumbers` returns |
| `Gears.FiledUnder` | 2023/day03/schema.py:134-138 | a part number is filed under `y` iff it is listed and `y` is one of its symbols |
| `Scratchcards.Overlap` | 2023/day4/score.py:11 | `len(winning & have)`; `Scratchcards.OverlapBound` bounds it by either side and `Scratchcards.StringsNotNumbers` shows that it compares strings |
| `Scratchcards.Score` | 2023/day4/score.py:12 | the card's score, 0 or `2 ** (overlap - 1)`; `Scratchcards.ScoreDoubles` and `Scratchcards.ScorePowerOfTwo` state its shape |
| `Scratchcards.ScoreDoubles` | 2023/day4/score.py:11-12 | a card scores 0 exactly when nothing matches; one match scores 1 and each further match doubles the score |
| `Scratchcards.ScorePowerOfTwo` | 2023/day4/score.py:12 | the score is 0 or `2 ** k` for some `k` below the overlap |
| `Scratchcards.OverlapBound` | 2023/day4/score.py:11 | no more numbers match than either side holds |
| `Scratchcards.StringsNotNumbers` | 2023/day4/score.py:19-20 | score.py keeps the numbers as strings, so `01` does not match `1` |
| `Scratchcards.SetOf` | 2023/day4/score.py:19-20 | the set comprehension holds exactly the listed words |
| `Scratchcards.ParseCard` | 2023/day4/score.py:14-21 | score.py's `Card.parse` succeeds iff the line has a `:`, a second word before it and a `\|` after it (the IndexError and ValueError paths otherwise), and then holds the words before and after `\|` as sets |
| `Scratchcards.ParseCardNumbers` | 2023/day4/score-part2.py:15-21 | score-part2.py's `Card.parse` additionally fails when a number does not read as an integer, and otherwise holds the integers' sets |
| `Scratchcards.CountsUpTo` | 2023/day4/score-part2.py:28-40 | one count per card processed so far |
| `Scratchcards.Counts` | 2023/day4/score-part2.py:28-40 | one count per card |
| `Scratchcards.AtLeastOne` | 2023/day4/score-part2.py:30-31 | every card holds at least its original copy |
| `Scratchcards.CountsPrefix` | 2023/day4/score-part2.py:32-40 | processing more cards does not change the counts of the earlier ones |
| `Scratchcards.Repeat` | 2023/day4/score-part2.py:39-40 | the appended block has the requested length |
| `Scratchcards.Dec` | 2023/day4/score-part2.py:33-35 | the first loop keeps the length of `acc` |
| `Scratchcards.PendingPositive` | 2023/day4/score-part2.py:37-40 | at the start of each card every pending entry is positive, one per copy still to be won |
| `Scratchcards.CountAllPositive` | 2023/day4/score-part2.py:33-36 | when all entries are positive each adds one copy |
| `Scratchcards.PositiveAppend` | 2023/day4/score-part2.py:37 | the filter acts entry by entry, so it splits over a concatenation |
| `Scratchcards.PositiveRepeat` | 2023/day4/score-part2.py:37 | a block of positive entries survives the filter whole; a block of zeros vanishes |
| `Scratchcards.RepeatStep` | 2023/day4/score-part2.py:33-37 | a block of entries `v > 0`, decremented and filtered, becomes a block of `v - 1`, or nothing when `v` was 1 |
| `Scratchcards.BlockStep` | 2023/day4/score-part2.py:33-37 | one earlier card's block for card `k`, decremented and filtered, is its block for card `k + 1` |
| `Scratchcards.PendingStep` | 2023/day4/score-part2.py:33-37 | decrementing and filtering the pending entries of card `k` gives those of card `k + 1` |
| `Scratchcards.AdvanceAppend` | 2023/day4/score-part2.py:33-37 | decrementing and filtering two runs of entries is done run by run |
| `Scratchcards.PendingPrefix` | 2023/day4/score-part2.py:33-40 | the pending entries depend only on the counts of the cards they come from |
| `Scratchcards.Decrement` | 2023/day4/score-part2.py:33-36 | the first loop decrements every positive entry and adds one copy per positive entry |
| `Scratchcards.KeepPositive` | 2023/day4/score-part2.py:37 | the comprehension keeps exactly the positive entries, in order |
| `Scratchcards.PushCopies` | 2023/day4/score-part2.py:39-40 | the appending loop adds `counts[num]` entries holding the overlap |
| `Scratchcards.CopyCounts` | 2023/day4/score-part2.py:28-40 | the propagation gives each card one original plus the copies of every earlier card whose winnings reach it (`Counts`) |
| `Scratchcards.CountsStep` | 2023/day4/score-part2.py:32-40 | after one card its count is final and `acc` holds the pending wins of the next card |
| `SparseMaps.ParseTripleMeans` | 2023/day05/sparsemap.py:19-24 | a line is a triple exactly when it holds three integers, which become `dest`, `src` and `len` in that order |
| `SparseMaps.FormatRoundTrip` | 2023/day05/sparsemap.py:8-24 | reading back what `str(triple)` writes gives the triple |
| `SparseMaps.BlockLength` | 2023/day05/sparsemap.py:19-25 | `parseFrom` reads the lines before the first line with no values, and stops there |
| `SparseMaps.TriplesOf` | 2023/day05/sparsemap.py:20-24 | the block parses iff every line of it is a triple, and then gives one triple per line in order |
| `SparseMaps.FormattedBlock` | 2023/day05/sparsemap.py:8-27 | a map written one triple per line and ended by a line with no values reads back as those triples |
| `SparseMaps.ParsedBlock` | 2023/day05/sparsemap.py:20-24 | lines that each parse to the matching triple give exactly those triples |
| `SparseMaps.TriplesStep` | 2023/day05/sparsemap.py:24 | reading one more line appends its triple |
| `SparseMaps.InBlock` | 2023/day05/sparsemap.py:20 | a line with values, not past the block, is inside it |
| `SparseMaps.IntsOfThree` | 2023/day05/sparsemap.py:23 | `[int(value) for value in values]` on three values succeeds exactly when the triple parses, with the same numbers |
| `SparseMaps.TriplesFail` | 2023/day05/sparsemap.py:21-23 | one line of the block that is not three integers fails the whole parse |
| `SparseMaps.BlockLengthIs` | 2023/day05/sparsemap.py:19-25 | the first line with no values is where the block ends |
| `SparseMaps.SortBySrc` | 2023/day05/sparsemap.py:13 | `sorted(..., key=lambda t: t.src)` orders the triples by `src` |
| `SparseMaps.Make` | 2023/day05/sparsemap.py:12-13 | the constructor keeps the same triples (a permutation), sorted by `src` |
| `SparseMaps.ParseFrom` | 2023/day05/sparsemap.py:15-27 | `parseFrom` returns the map of the block's triples, or the ValueError of the first line that is not three integers |
| `SparseMaps.FindTriple` | 2023/day05/sparsemap.py:44-56 | the binary search returns only a triple covering the key; on triples ordered by start and end, `None` means no triple covers it |
| `SparseMaps.SortedNonOverlappingOrdered` | 2023/day05/sparsemap.py:44-56 | sorted by start, non-overlapping ranges are also sorted by end, so the binary search's order holds |
| `SparseMaps.MakeNonOverlapping` | 2023/day05/sparsemap.py:13 | sorting keeps the triples non-overlapping exactly when they were |
| `SparseMaps.ImageCovered` | 2023/day05/sparsemap.py:32-42 | without overlaps, any triple covering the key gives its image |
| `SparseMaps.ImageUncovered` | 2023/day05/sparsemap.py:35-37 | a key no triple covers maps to itself |
| `SparseMaps.ImagePermutation` | 2023/day05/sparsemap.py:13 | without overlaps the order of the triples changes no image |
| `SparseMaps.Get` | 2023/day05/sparsemap.py:32-42 | `__getitem__` returns the key or the shift of a triple covering it, the key itself when none covers it, and the reference `Image` on non-overlapping triples; its ValueError branch is unreachable |
| `SparseMaps.MakeImage` | 2023/day05/sparsemap.py:12-42 | the map built from non-overlapping triples sends every key where the triples say, in any order |
| `BoatRaces.Wins` | 2023/day6/run.py:10-21 | the hold times `1 .. time-1` that beat the record; `BoatRaces.NumWins` states that the loop counts exactly these and `BoatRaces.HoldMirror` that they come in mirrored pairs |
| `BoatRaces.WinsBelowBound` | 2023/day6/run.py:14-20 | no more wins than hold times tried |
| `BoatRaces.NumWins` | 2023/day6/run.py:10-21 | `numWins` counts exactly the hold times `1 .. time-1` whose distance beats the record, at most `time - 1` of them |
| `BoatRaces.HoldMirror` | 2023/day6/run.py:14-18 | holding `t` and holding `time - t` go equally far, so a hold wins exactly when its mirror does |
| `BoatRaces.AllWin` | 2023/day6/run.py:14-20 | against a negative record every hold wins |
| `BoatRaces.ReadNumbers` | 2023/day6/run.py:4-8 | `readNumbers` succeeds iff the line's first word is the prefix (an empty line fails on `pieces[0]`) and the rest are integers, one number per remaining word |
| `BoatRaces.ProductZero` | 2023/day6/run.py:28-29 | a race nobody can win makes the product 0 |
| `BoatRaces.Answer` | 2023/day6/run.py:23-29 | the script succeeds iff both lines read and hold equally many numbers, and then prints the product of each race's win count |
| `CamelCards.OrderOf` | 2023/day7/camelpoker.py:48-49 | a found order is the position of the symbol in `'AKQJT98765432'` |
| `CamelCards.WithSymbol` | 2023/day7/camelpoker.py:48-53 | `Card.withSymbol` succeeds iff the character is one of the thirteen symbols, giving the card at its position; any other character is a KeyError |
| `CamelCards.CardTable` | 2023/day7/camelpoker.py:48-53 | every card of the table is found under its own symbol at its own position |
| `CamelCards.CardLess` | 2023/day7/camelpoker.py:26-27 | `Card.__lt__` by order; `CamelCards.AceLeast` states that the ace is least and the two greatest |
| `CamelCards.AceLeast` | 2023/day7/camelpoker.py:26-49 | by `Card.__lt__` the ace is less than every other card and the two greater than every other |
| `CamelCards.CardEqualsAsWrittenIrreflexive` | 2023/day7/camelpoker.py:18-21 | as written, the ace does not equal itself |
| `CamelCards.CardEqualsIsEquality` | 2023/day7/camelpoker.py:18-21 | the corrected `__eq__` (same symbol and order) is equality of cards |
| `CamelCards.CountedLessOrder` | 2023/day7/camelpoker.py:40-45 | `CardWithCount.__lt__` is a strict order, total on entries of distinct cards: the higher count first, then the lesser card |
| `CamelCards.Lookup` | 2023/day7/camelpoker.py:59 | `counts.get(card, 0)`; `CamelCards.BumpLookup` and `CamelCards.LookupEntry` state what it returns |
| `CamelCards.Bump` | 2023/day7/camelpoker.py:59 | `counts[card] = counts.get(card, 0) + 1`; `CamelCards.BumpLookup`, `CamelCards.BumpTotal`, `CamelCards.BumpKeys` and `CamelCards.BumpWellFormed` state its effect |
| `CamelCards.BumpLookup` | 2023/day7/camelpoker.py:59 | `counts[card] = counts.get(card, 0) + 1` adds one to that card's count and leaves the others |
| `CamelCards.BumpTotal` | 2023/day7/camelpoker.py:59 | each step adds one to the total of the counts |
| `CamelCards.KeyedCons` | 2023/day7/camelpoker.py:57-59 | a card is a key of the entries iff it is the first entry's or a key of the rest |
| `CamelCards.BumpKeys` | 2023/day7/camelpoker.py:59 | a step adds the card to the keys and nothing else |
| `CamelCards.BumpWellFormed` | 2023/day7/camelpoker.py:59 | a step keeps one entry per card, each with a positive count |
| `CamelCards.Tally` | 2023/day7/camelpoker.py:56-59 | the counts `Hand.__init__` builds; `CamelCards.TallyCounts` states that they are the cards' multiplicities |
| `CamelCards.TallyCounts` | 2023/day7/camelpoker.py:56-59 | the counts record each card's multiplicity in the hand, the keys are exactly the hand's cards, and the counts sum to the number of cards |
| `CamelCards.EntryCount` | 2023/day7/camelpoker.py:57-59 | an entry's count is its card's multiplicity in the hand |
| `CamelCards.LookupEntry` | 2023/day7/camelpoker.py:57-59 | looking up an entry's card gives that entry's count |
| `CamelCards.TypeOrder` | 2023/day7/camelpoker.py:91-149 | `HandType.order` is the type's position in `_handTypes` |
| `CamelCards.CountOf` | 2023/day7/camelpoker.py:133-141 | the number of entries with count `k` is zero iff `k` is not among the counts |
| `CamelCards.TypeFrom` | 2023/day7/camelpoker.py:63 | the filter from position `k` on returns a matching type with no matching type before it |
| `CamelCards.TypeOf` | 2023/day7/camelpoker.py:143-149 | the type of a hand matches it and no stronger type does; HighCard always matches, so `next` never raises |
| `CamelCards.TotalOfTwo` | 2023/day7/camelpoker.py:57-59 | two entries' counts add up to at most the total |
| `CamelCards.TotalOfOne` | 2023/day7/camelpoker.py:57-59 | an entry's count is at most the total |
| `CamelCards.NoBigBesidePair` | 2023/day7/camelpoker.py:105-141 | counts summing to at most 5 cannot hold a 4 or a 5 beside a 2 |
| `CamelCards.FullHouseBeforeThree` | 2023/day7/camelpoker.py:117-149 | five cards with a three and a pair are a full house, although ThreeOfAKind matches them too |
| `CamelCards.AllDistinctHighCard` | 2023/day7/camelpoker.py:105-149 | five different cards are a high card hand |
| `CamelCards.DistinctOnce` | 2023/day7/camelpoker.py:57-59 | a card of a hand of distinct cards occurs once |
| `CamelCards.NewHand` | 2023/day7/camelpoker.py:55-63 | `Hand.__init__` builds the hand of these cards and bid, with counts summing to the number of cards |
| `CamelCards.CardsLessIrreflexive` | 2023/day7/camelpoker.py:84-89 | a hand's cards are not less than themselves |
| `CamelCards.CardsLessTransitive` | 2023/day7/camelpoker.py:84-89 | the card-by-card comparison is transitive |
| `CamelCards.HandLess` | 2023/day7/camelpoker.py:79-89 | `Hand.__lt__` without its IndexError: the stronger type first, then card by card; `CamelCards.HandLessStrictOrder` states that it is a strict order and `CamelCards.LessThan` that the source loop agrees with it where it does not raise |
| `CamelCards.HandLessStrictOrder` | 2023/day7/camelpoker.py:79-89 | `Hand.__lt__` is a strict order: irreflexive and transitive |
| `CamelCards.LessThan` | 2023/day7/camelpoker.py:79-89 | the loop of `Hand.__lt__` raises IndexError iff the types tie, the right hand is shorter and agrees so far; otherwise it returns `HandLess` |
| `CamelCards.ParseHand` | 2023/day7/camelpoker.py:65-71 | a parsed line had at least two words |
| `CamelCards.SymbolsOf` | 2023/day7/camelpoker.py:73-74 | `Hand.__str__` writes one symbol per card, in order |
| `CamelCards.ParseHandRoundTrip` | 2023/day7/camelpoker.py:65-74 | a hand written as its symbols, a space and its bid parses back to that hand |
| `CamelCards.Ranked` | 2023/day7/camelpoker.py:152 | `hands.sort(reverse=True)` gives a permutation in which no hand is weaker than one before it |
| `CamelCards.Winnings` | 2023/day7/camelpoker.py:154-160 | the sum of rank times bid; `CamelCards.UniformBids` gives its closed form for equal bids and `CamelCards.TotalWinnings` applies it to the ranked hands |
| `CamelCards.UniformBids` | 2023/day7/camelpoker.py:154-159 | with one bid for every hand the winnings are the bid times `n(n + 1) / 2` |
| `CamelCards.TotalWinnings` | 2023/day7/camelpoker.py:151-160 | the driver sums each bid times its rank over the hands sorted weakest first |
| `Lcm.Gcd` | 2023/day08/lcm.py:5-14 | `_gcd` is zero only for two zeros, and returns the other argument when one is zero |
| `Lcm.GcdDivides` | 2023/day08/lcm.py:5-14 | `_gcd(a, b)` divides both arguments |
| `Lcm.GcdGreatest` | 2023/day08/lcm.py:5-14 | every common divisor of `a` and `b` divides `_gcd(a, b)`: it is the greatest common divisor |
| `Lcm.GcdScale` | 2023/day08/lcm.py:5-14 | scaling both arguments scales the result: `_gcd(m*a, m*b) == m * _gcd(a, b)` |
| `Lcm.CoprimeQuotients` | 2023/day08/lcm.py:5-14 | dividing both positive arguments by their gcd leaves coprime quotients |
| `Lcm.GcdFoldIsCommonDivisor` | 2023/day08/lcm.py:19-22 | the folded `_gcd` divides the start and every value, and every common divisor of them divides it |
| `Lcm.GcdList` | 2023/day08/lcm.py:16-22 | ValueError iff fewer than two values; otherwise the left fold of `_gcd`, which divides every value and is divided by every common divisor |
| `Lcm.LcmPair` | 2023/day08/lcm.py:24-25 | `_lcm` fails (division by zero) iff both arguments are zero |
| `Lcm.LcmCommonMultiple` | 2023/day08/lcm.py:24-25 | unless both are zero, `_lcm(a, b)` is a multiple of both, and zero iff one argument is |
| `Lcm.LcmLeast` | 2023/day08/lcm.py:24-25 | for positive arguments `_lcm(a, b)` divides every common multiple: it is the least common multiple |
| `Lcm.LcmFoldIsLeastCommonMultiple` | 2023/day08/lcm.py:30-33 | over positive values the folded `_lcm` succeeds, is positive, is a multiple of the start and of every value, and divides every common multiple of them |
| `Lcm.LcmList` | 2023/day08/lcm.py:27-33 | ValueError when fewer than two values; otherwise the left fold of `_lcm`, and over positive values the least positive common multiple |
| `Wasteland.Move` | 2023/day8/map.py:34-38 | a move from a known node lands on a known node or fails on an unknown name; any letter but `L` or `R` stays put |
| `Wasteland.PassNext` | 2023/day8/map.py:30-31 | a whole pass over the directions starts where the previous one ended |
| `Wasteland.DirInPass` | 2023/day8/map.py:31 | move `i` of a pass follows `directions[i]` |
| `Wasteland.NodeAfter` | 2023/day8/map.py:30-39 | the walker's position after `k` moves, when the walk has not failed, is a known node |
| `Wasteland.NotYetMeans` | 2023/day8/map.py:30-33 | none of the first `n` positions is `end` |
| `Wasteland.Walk` | 2023/day8/map.py:27-41 | the walk from `AAA` returns the first move count that reaches `ZZZ`, fails on an unknown start, and returns that count whenever it lies within the passes allowed |
| `Wasteland.Arrived` | 2023/day8/map.py:30-33 | reaching `end` after `count` moves and not before makes `count` the unique first arrival |
| `Wasteland.NodeFailureSticks` | 2023/day8/map.py:36-38 | a walk that has hit an unknown name stays failed |
| `Wasteland.FirstArrivalUnique` | 2023/day8/map.py:30-39 | the first arrival is unique |
| `Wasteland.NotWithin` | 2023/day8/map.py:30-39 | not at the end within `count` moves: no first arrival up to `count` |
| `Wasteland.NeverArrives` | 2023/day8/map.py:30-39 | a walk that fails before arriving never arrives |
| `Wasteland.WalkStep` | 2023/day8/map.py:32-39 | one move gives the next position and records that the end was not reached before it |
| `Wasteland.StartAtEnd` | 2023/day8/map.py:30 | a start that is already the end takes no moves |
| `Wasteland.Cyclic` | 2023/day8/map.py:30-31 | after a whole pass the walk goes on as if it started afresh from where it is |
| `Wasteland.Starts` | 2023/day08/map-part2.py:48 | `curNodes` holds exactly the node names ending in `A` |
| `Wasteland.Navigate` | 2023/day08/map-part2.py:41-46 | `navigate` moves like map.py for `L` and `R`, and gives `None` for any other letter |
| `Wasteland.NavigateAll` | 2023/day08/map-part2.py:57 | all walkers move at once: it succeeds iff every walker's move does, and then walker `i` is where its own move took it |
| `Wasteland.StatesAfter` | 2023/day08/map-part2.py:52-58 | after `k` simultaneous moves there are as many walkers as starts, all on known nodes |
| `Wasteland.Pointwise` | 2023/day08/map-part2.py:52-58 | with only `L` and `R` directions, walker `i` after `k` simultaneous moves is where it would be walking alone |
| `Wasteland.UnfinishedMeans` | 2023/day08/map-part2.py:52-56 | none of the first `n` simultaneous positions has every walker on a `Z` node |
| `Wasteland.AllArriveUnique` | 2023/day08/map-part2.py:52-58 | the moment all walkers are on `Z` nodes is unique |
| `Wasteland.StatesFailureSticks` | 2023/day08/map-part2.py:57 | simultaneous walks that have failed stay failed |
| `Wasteland.NotAllWithin` | 2023/day08/map-part2.py:52-58 | not all on `Z` nodes within `count` moves: no arrival up to `count` |
| `Wasteland.NeverAllArrive` | 2023/day08/map-part2.py:52-58 | walkers that fail before all arriving never all arrive |
| `Wasteland.WalkAll` | 2023/day08/map-part2.py:48-61 | the loop returns the first move count at which every walker is on a `Z` node, and returns it whenever it lies within the passes allowed |
| `Wasteland.AllArrived` | 2023/day08/map-part2.py:52-56 | all on `Z` nodes after `count` moves and not before makes `count` the unique arrival |
| `Wasteland.OnePass` | 2023/day08/map-part2.py:53-58 | the inner loop stops once every walker is on a `Z` node and otherwise makes one simultaneous move per direction; a failure means the walkers never all arrive |
| `Wasteland.StatesStep` | 2023/day08/map-part2.py:55-58 | one simultaneous move gives the next positions and records that not all walkers were on `Z` nodes before it |
| `Wasteland.AllAtEnd` | 2023/day08/map-part2.py:35-39 | `atEnd` is true iff every current name ends in `Z` |
| `Extrapolation.Diff` | 2023/day09/extrapolate.py:3-7 | the differences of neighbouring values: one fewer than the values |
| `Extrapolation.DiffSeq` | 2023/day09/extrapolate.py:3-7 | `diffseq`'s loop returns `values[i + 1] - values[i]` at every index, one fewer than the values |
| `Extrapolation.AllZerosOf` | 2023/day09/extrapolate.py:9-13 | `allzeros` is true iff every value is 0 (so also for the empty list) |
| `Extrapolation.DiffRowsPush` | 2023/day09/extrapolate.py:19-20 | pushing the differences of a top row that is not all zeros keeps each row the differences of the one below |
| `Extrapolation.BuildStack` | 2023/day09/extrapolate.py:17-20 | the first loop ends with each row the differences of the one below and the top row all zeros |
| `Extrapolation.NextAlongRows` | 2023/day09/extrapolate.py:24-28 | along the rows, each row's forward extrapolation is its last value plus the next row's |
| `Extrapolation.PrevAlongRows` | 2023/day09/extrapolate-part2.py:24-28 | along the rows, each row's backward extrapolation is its first value minus the next row's |
| `Extrapolation.ForwardPop` | 2023/day09/extrapolate.py:25-27 | one pop extends the row below by its forward extrapolation |
| `Extrapolation.BackwardPop` | 2023/day09/extrapolate-part2.py:25-27 | one pop puts the row below's backward extrapolation in front of it |
| `Extrapolation.ZeroTop` | 2023/day09/extrapolate.py:22 | the 0 put on the all-zero top row is its extrapolation either way |
| `Extrapolation.Next` | 2023/day09/extrapolate.py:15-29 | the forward extrapolation; `Extrapolation.ExtrapolateForward` ties the loop to it and `Extrapolation.ConstantHistory`, `Extrapolation.ArithmeticHistory` and `Extrapolation.NextNegate` state its meaning |
| `Extrapolation.Prev` | 2023/day09/extrapolate-part2.py:15-29 | the backward extrapolation; `Extrapolation.ExtrapolateBackward` ties part 2's loop to it and `Extrapolation.PrevIsReversedNext` relates it to `Next` |
| `Extrapolation.ExtrapolateForward` | 2023/day09/extrapolate.py:15-29 | `extrapolate` returns `Next(values)`, the last value plus the extrapolation of the differences, and the caller's list ends with it appended |
| `Extrapolation.ExtrapolateBackward` | 2023/day09/extrapolate-part2.py:15-29 | part 2's `extrapolate` returns `Prev(values)`, and the caller's list starts with it inserted at index 0 |
| `Extrapolation.ZeroHistory` | 2023/day09/extrapolate.py:15-29 | an all-zero or empty history extrapolates to 0 both ways |
| `Extrapolation.ConstantHistory` | 2023/day09/extrapolate.py:15-29 | a constant history extrapolates to the same constant both ways |
| `Extrapolation.ArithmeticHistory` | 2023/day09/extrapolate.py:15-29 | an arithmetic history `a + b*i` extrapolates to its next term and to the term before its first |
| `Extrapolation.Negate` | 2023/day09/extrapolate.py:15-29 | negation keeps the length |
| `Extrapolation.Reverse` | 2023/day09/extrapolate-part2.py:15-29 | reversal keeps the length |
| `Extrapolation.NextNegate` | 2023/day09/extrapolate.py:15-29 | extrapolation commutes with negation |
| `Extrapolation.PrevIsReversedNext` | 2023/day09/extrapolate-part2.py:15-29 | extrapolating backward is extrapolating the reversed history forward |
| `Extrapolation.ReverseZeros` | 2023/day09/extrapolate.py:9-13 | a reversed list is all zeros iff the list is |
| `Extrapolation.ReverseDiff` | 2023/day09/extrapolate.py:3-7 | the differences of the reversed history are the reversed differences, negated |
| `Pipes.Opposite` | 2023/day10/grid.py:23-34 | `opposite` never returns the direction itself |
| `Pipes.OppositeInvolution` | 2023/day10/grid.py:23-34 | `opposite` is an involution |
| `Pipes.DirectionsOf` | 2023/day10/grid.py:49-66 | the ends of each tile type; `Pipes.ConnectsIffDirection` ties it to the `connects*` tables and `Pipes.SelectTwoEnds` shows every pair of ends names one pipe |
| `Pipes.Connects` | 2023/day10/grid.py:68-94 | `connects`: stated by `Pipes.ConnectsIffDirection` to agree with `directions` |
| `Pipes.ConnectsIffDirection` | 2023/day10/grid.py:48-94 | the four `connects*` tables agree with `directions`, and the empty, start, outside and inside tiles connect nowhere |
| `Pipes.Matching` | 2023/day10/grid.py:98 | the comprehension keeps exactly the tile types whose direction set is `dirs` |
| `Pipes.Select` | 2023/day10/grid.py:96-101 | `select` returns a type with exactly these ends, or the ValueError |
| `Pipes.MatchingLength` | 2023/day10/grid.py:98-99 | the comprehension's length is the number of types with these ends |
| `Pipes.HitsUnrolled` | 2023/day10/grid.py:36-46 | the count over `PipeType` is the sum over its ten members in declaration order |
| `Pipes.SameDirections` | 2023/day10/grid.py:98 | two direction sets are equal iff they agree on each of the four directions |
| `Pipes.DirectionCount` | 2023/day10/grid.py:17-21 | a direction set's size is the number of the four directions in it |
| `Pipes.RemoveOne` | 2023/day10/grid.py:17-21 | removing a direction lowers the size by one iff it was present |
| `Pipes.SelectTwoEnds` | 2023/day10/grid.py:96-101 | `select` succeeds exactly on sets of two directions: each names one pipe shape |
| `Pipes.OneHitIffTwoEnds` | 2023/day10/grid.py:98-99 | exactly one tile type has the ends `dirs` iff there are two of them |
| `Pipes.Neighbour` | 2023/day10/grid.py:212-239 | `direction` with `_bound` gives the coordinate one step away iff it is within the bounds, and `None` otherwise |
| `Pipes.NeighbourBack` | 2023/day10/grid.py:212-239 | stepping to a neighbour and back in the opposite direction leads home |
| `Pipes.CheckShape` | 2023/day10/grid.py:161-169 | the constructor's checks pass iff the grid is non-empty and every row has the first row's non-zero width |
| `Pipes.FirstOfTypeUnique` | 2023/day10/grid.py:196-201 | only one tile is the first of its type in row-major order |
| `Pipes.StartDirections` | 2023/day10/grid.py:203-208 | the directions collected are exactly those whose neighbour exists and connects back toward the start |
| `Pipes.Links` | 2023/day10/grid.py:263-273 | `_connect` links a pipe exactly in the directions it connects, where a neighbour exists and connects back; only among its own ends |
| `Pipes.LinksSymmetric` | 2023/day10/grid.py:263-273 | links are symmetric: when `c` links toward `d`, its neighbour links back toward `c` |
| `Pipes.ScannedNone` | 2023/day10/grid.py:258-261 | before the loops nothing is recorded |
| `Pipes.ScannedOneMore` | 2023/day10/grid.py:260-261 | each coordinate adds itself iff its tile is not empty |
| `Pipes.ScannedRow` | 2023/day10/grid.py:259-260 | the end of one row is the start of the next |
| `Pipes.ScannedAll` | 2023/day10/grid.py:258-261 | after both loops the recorded coordinates are exactly the non-empty tiles |
| `Pipes.LinksOfOneMore` | 2023/day10/grid.py:268-273 | recording one more pipe adds exactly its links |
| `Pipes.ProcessedOnStackPush` | 2023/day10/grid.py:309-310 | pushing pipes that are not processed leaves the count of processed entries on the stack alone |
| `Pipes.ToSequence` | 2023/day10/grid.py:309-310 | `list.extend` from a set takes exactly the set's elements |
| `Pipes.Grid.Of` | 2023/day10/grid.py:161-172 | the fields start as the given cells, their height and width, with no pipes and no links yet |
| `Pipes.Grid.Find` | 2023/day10/grid.py:196-201 | `_find` returns the first tile of the type in row-major order, or none when no tile has it (the ValueError) |
| `Pipes.Grid.StartDirs` | 2023/day10/grid.py:204-208 | the loop collects exactly `StartDirections` |
| `Pipes.Grid.Connect` | 2023/day10/grid.py:263-273 | `_connect` ignores an empty tile, and otherwise records the pipe with exactly its links |
| `Pipes.Grid.ConnectAll` | 2023/day10/grid.py:258-261 | `_connectAll` records every non-empty tile as a pipe with its links |
| `Pipes.Grid.ConnectRow` | 2023/day10/grid.py:260-261 | one row of `_connectAll` records that row's non-empty tiles |
| `Pipes.Grid.ReplaceStart` | 2023/day10/grid.py:203-210 | `_replaceStart` succeeds iff exactly two neighbours connect back, and then puts the one pipe shape with those ends at the start; on failure the grid is unchanged |
| `Pipes.Grid.ConnectedIsValid` | 2023/day10/grid.py:160-174 | a grid whose pipes and links came from `_connectAll` is well formed |
| `Pipes.Grid.Build` | 2023/day10/grid.py:160-174 | the `Grid` constructor succeeds exactly when the grid is non-empty and even, has a start, and exactly two neighbours connect back to it; the start is the first `S`, its tile the fitting pipe shape, and the pipes and links those of every non-empty tile |
| `Pipes.Grid.Clear` | 2023/day10/grid.py:275-278 | `clear` empties exactly the tile at `c` and leaves the pipe table alone |
| `Pipes.Grid.Relabel` | 2023/day10/grid.py:181-182 | `__setitem__` changes exactly the tile at `c` |
| `Pipes.Grid.Linked` | 2023/day10/grid.py:309 | a pipe's links lie inside the grid |
| `Pipes.Grid.SearchStarts` | 2023/day10/grid.py:302-305 | the search starts from the start alone, with nothing processed |
| `Pipes.Grid.SearchEnds` | 2023/day10/grid.py:306-312 | when the stack is empty the processed pipes hold the start, are closed under links, and lie in every link-closed set holding the start |
| `Pipes.Grid.VisitKeeps` | 2023/day10/grid.py:307-311 | one round keeps the search invariant |
| `Pipes.Grid.VisitDecreases` | 2023/day10/grid.py:307-311 | one round shrinks the unprocessed coordinates, or the processed entries still on the stack |
| `Pipes.Grid.Visit` | 2023/day10/grid.py:307-311 | one round pops a pipe, marks it processed, and pushes its unprocessed links, keeping the invariant and shrinking the measure |
| `Pipes.Grid.VisitStep` | 2023/day10/grid.py:307-311 | what one round keeps and what it shrinks, for the popped pipe and the pushed links |
| `Pipes.Grid.FindLoop` | 2023/day10/grid.py:300-312 | `findIn` returns the start's connected component: the least link-closed set holding the start |
| `Pipes.Cleared` | 2023/day10/grid.py:319-322 | clearing keeps the grid's shape |
| `Pipes.ClearedOneMore` | 2023/day10/grid.py:321-322 | clearing one more coordinate is one more `clear` |
| `Pipes.ClearedLeavesLoop` | 2023/day10/grid.py:319-322 | after clearing the pipes off the loop, the non-empty tiles are exactly the loop's, each with its type as before |
| `Pipes.ClearRemainderOf` | 2023/day10/grid.py:319-322 | `clearRemainderOf` empties every pipe off the loop and keeps every other tile and the pipe table |
| `Pipes.DistanceToFarthestPointFromStart` | 2023/day10/grid.py:324-325 | `ceil(len / 2)`: twice the result is the loop's length or one more |
| `Pipes.FillRow` | 2023/day10/grid.py:350-366 | the scan keeps the row's length |
| `Pipes.NeverBothPending` | 2023/day10/grid.py:359-366 | the scan never leaves both a north and a south end pending: a pair completes a crossing |
| `Pipes.FillRowRelabels` | 2023/day10/grid.py:350-356 | the scan relabels every empty tile as inside or outside and leaves every other tile as it was |
| `Pipes.LabelCountsCoverEmpties` | 2023/day10/grid.py:353-356 | in each row the inside and outside counts add up to the empty tiles |
| `Pipes.CountsCoverEmpties` | 2023/day10/grid.py:341-367 | the two counts returned add up to the empty tiles scanned |
| `Pipes.ScanTile` | 2023/day10/grid.py:351-366 | one tile of the scan relabels it if empty and steps the scan state |
| `Pipes.ScanRow` | 2023/day10/grid.py:346-366 | one row becomes `FillRow` of itself, with its inside and outside counts |
| `Pipes.ScanRowStarts` | 2023/day10/grid.py:347-349 | a row's scan starts outside with nothing pending |
| `Pipes.ScanRowDone` | 2023/day10/grid.py:350-366 | at the end of a row it is relabelled and counted |
| `Pipes.FillRows` | 2023/day10/grid.py:346 | filling keeps the number of rows |
| `Pipes.FillRowsStep` | 2023/day10/grid.py:346 | one more row is filled |
| `Pipes.FillingStarts` | 2023/day10/grid.py:342-345 | both counts start at 0 |
| `Pipes.FillingEnds` | 2023/day10/grid.py:346-367 | after the last row every row is filled |
| `Pipes.FillNextRow` | 2023/day10/grid.py:346-366 | one row with the counts carried along |
| `Pipes.FillInsideAndOutside` | 2023/day10/grid.py:341-367 | `fillInsideAndOutside` relabels every row by its scan and returns the counts of the two labels |
| `Universe.LtStrictTotal` | 2023/day11/universe.py:30-37 | `Coordinate.__lt__` (row, then column) is a strict order in which any two different coordinates are comparable |
| `Universe.CountBelowStep` | 2023/day11/universe.py:43-48 | between `v` and `w` at most `w - v` values can be missing |
| `Universe.Expand` | 2023/day11/universe.py:39-49 | `Coordinate.expand`'s two counting loops move each axis `by - 1` further per missing row or column before it |
| `Universe.ExpandByOne` | 2023/day11/universe.py:39-49 | expanding by 1 leaves every coordinate where it is |
| `Universe.AxisGrows` | 2023/day11/universe.py:39-49 | with a factor of at least 1, the gap between two values grows by `factor - 1` per missing value between them, so it never shrinks |
| `Universe.AxisDistance` | 2023/day11/universe.py:39-49 | the distance along one axis after expansion is the old distance plus `factor - 1` per missing value between |
| `Universe.GapAbs` | 2023/day11/universe.py:39-49 | the absolute gap of two shifted values, when the shifts follow the values |
| `Universe.ExpandKeepsOrder` | 2023/day11/universe.py:30-49 | with a factor of at least 1, expansion keeps the reading order of any two galaxies |
| `Universe.Distance` | 2023/day11/universe.py:59-60 | `shortestPathLength`, the Manhattan distance; `Universe.DistanceMetric` states that it is a metric and `Universe.ExpandedDistance` how expansion changes it |
| `Universe.DistanceMetric` | 2023/day11/universe.py:59-60 | `shortestPathLength` is symmetric, zero exactly between equal points, and obeys the triangle inequality |
| `Universe.ExpandedDistance` | 2023/day11/universe.py:39-60 | after expansion every missing row or column between two galaxies adds `factor - 1` to their distance |
| `Universe.Make` | 2023/day11/universe.py:63-66 | the constructor keeps the bound and a permutation of the galaxies, sorted in reading order |
| `Universe.Range` | 2023/day11/universe.py:83-84 | `set(range(n))` holds exactly `0 .. n - 1` |
| `Universe.ExpandAll` | 2023/day11/universe.py:85-87 | the second loop expands every galaxy, in order |
| `Universe.ExpandAllSorted` | 2023/day11/universe.py:85-89 | a list in reading order stays in reading order when expanded with a factor of at least 1 |
| `Universe.ExpandUniverse` | 2023/day11/universe.py:77-89 | `Universe.expand` builds the universe of the expanded bound and galaxies, by the rows and columns below the bound that hold no galaxy |
| `Universe.RowsStep` | 2023/day11/universe.py:80-82 | each galaxy adds its row and its column |
| `Universe.ExpandKeepsCount` | 2023/day11/universe.py:77-89 | expansion keeps the number of galaxies |
| `Universe.RowContents` | 2023/day11/universe.py:93-94 | the inner loop pairs galaxy `i` with each later galaxy, in order |
| `Universe.TriangleStep` | 2023/day11/universe.py:92-94 | the pair count after one more outer iteration |
| `Universe.PairsBeforeLength` | 2023/day11/universe.py:92-94 | there are `p(2n - p - 1) / 2` pairs whose first galaxy has index below `p` |
| `Universe.PairCount` | 2023/day11/universe.py:91-94 | `galaxyPairs` yields `n(n - 1) / 2` pairs for `n` galaxies |
| `Universe.RowListed` | 2023/day11/universe.py:93-94 | galaxy `i` is paired with every later galaxy |
| `Universe.PairListed` | 2023/day11/universe.py:92-94 | every pair `i < j` with `i` below `p` is yielded |
| `Universe.AllPairs` | 2023/day11/universe.py:91-94 | `galaxyPairs` yields every pair of distinct galaxy indices, each in one order only |
| `Universe.SumDistancesAppend` | 2023/day11/universe.py:114-117 | the sum over two lists of pairs is the sum of their sums |
| `Universe.Total` | 2023/day11/universe.py:114-118 | the driver's total is the sum of the shortest path lengths over every pair `galaxyPairs` yields |
| `Universe.AddRow` | 2023/day11/universe.py:93-117 | the inner loop adds the distances of galaxy `i` to every galaxy after it |
| `Universe.RowSumStep` | 2023/day11/universe.py:93-117 | one more galaxy in the row adds its distance |
| `Springs.Known` | 2023/day12/run.py:16-20 | `known` gives `[DAMAGED, OPERATIONAL]` for an unknown spring and the spring itself otherwise, never an unknown |
| `Springs.Arrangements` | 2023/day12/run.py:22-60 | what `count` returns from a state `(i, groups, j)`; from the start it is the number of ways to fill in the unknown springs so that the damaged runs have the groups' lengths (`Springs.CountsFillings`); `Springs.Count` states that the in-place search returns it and `Springs.UnknownSplits` its recursion |
| `Springs.CountsFillings` | 2023/day12/run.py:22-60 | `count(conditions, 0, groups, 0)` equals the number of fillings of the unknown springs (each known spring kept) whose maximal damaged runs have the groups' lengths in order, groups of size 0 after the last run also being accepted; those fillings are listed each once |
| `Springs.CompletionsExact` | 2023/day12/run.py:16-20 | trying `known()` at every spring enumerates every filling of the unknown springs exactly once |
| `Springs.ArrangementsSum` | 2023/day12/run.py:40-60 | the search from `(i, groups, j)` adds up, over every way to fill in the springs from `i` on, what the search finds on that filled-in row |
| `Springs.ChoiceSum` | 2023/day12/run.py:43-58 | one pass of the loop (set spring `i`, adjust group `j`, recurse, restore) counts the fillings that start with that choice |
| `Springs.Decided` | 2023/day12/run.py:22-60 | on a row with no unknown spring left from `i`, the search finds 1 exactly when the rest of the row is accepted from that state and 0 otherwise |
| `Springs.AcceptsDamaged` | 2023/day12/run.py:49-50 | a damaged spring takes one off the current group: the row is accepted before it exactly when it is accepted after it with `groups[j]` one smaller |
| `Springs.AcceptsNonNegative` | 2023/day12/run.py:34-36 | an accepted state has no negative group, which is why `count` may give up on one |
| `Springs.RunsPositive` | 2023/day12/run.py:45-48 | every maximal damaged run holds at least one spring |
| `Springs.RunsExample` | 2023/day12/run.py:45-48 | `#.##` has the damaged runs `1, 2` |
| `Springs.PositiveGroups` | 2023/day12/run.py:29-33 | with positive groups, as the puzzle's are, a filling is counted exactly when its runs equal the groups |
| `Springs.Count` | 2023/day12/run.py:22-60 | `count` returns `Arrangements` of the row and groups as they stand, and puts every spring and group it changed back, so the caller's lists are unchanged |
| `Springs.UnknownSplits` | 2023/day12/run.py:43-55 | an unknown spring counts the arrangements with it damaged plus those with it operational |
| `Springs.OneChoice` | 2023/day12/run.py:43-55 | a known spring has one choice, itself |
| `Springs.ChoiceIgnoresSpring` | 2023/day12/run.py:44 | a choice for spring `i` does not depend on what spring `i` held before |
| `Springs.UnknownsAfter` | 2023/day12/run.py:44 | choosing spring `i` leaves the unknowns after it as they were |
| `Springs.AtMostPow2` | 2023/day12/run.py:22-60 | each unknown spring at most doubles the count |
| `Springs.KnownChoice` | 2023/day12/run.py:43-55 | a known spring's count is bounded by the unknowns after it |
| `Springs.NoUnknownAtMostOne` | 2023/day12/run.py:43 | a row with no unknown spring left has at most one arrangement (the result is 0 or 1) |
| `Springs.Joined` | 2023/day12/run.py:88-91 | `n` copies of the row with an unknown spring between each two have `n(len + 1) - 1` springs |
| `Springs.JoinedUnknowns` | 2023/day12/run.py:88-91 | the part-2 row has five times the unknowns of the row, plus the four between the copies |
| `Springs.UnknownsConcat` | 2023/day12/run.py:91 | the unknowns of two rows put together add up |
| `Springs.UnknownsShift` | 2023/day12/run.py:91 | the unknowns from `i` of a joined row split at the join |
| `Springs.UnknownsSuffix` | 2023/day12/run.py:91 | the unknowns past the first row are the second row's |
| `Springs.UnfoldRow` | 2023/day12/run.py:87-91 | the part-2 loop builds the row, then four times an unknown spring and the row again |
| `Springs.Repeat` | 2023/day12/run.py:92 | `counts * 5` has five times as many counts |
| `Springs.RepeatPeriodic` | 2023/day12/run.py:92 | the repeated counts start and end with the counts and repeat with their length as period |
| `Mirrors.Transpose` | 2023/day13/run.py:17-20 | `transpose` swaps the dimensions: as many rows as the first row has cells, each as long as the pattern |
| `Mirrors.TransposeTwice` | 2023/day13/run.py:17-20 | transposing a rectangular pattern with at least one column twice gives it back |
| `Mirrors.Diff` | 2023/day13/run.py:22-23 | `diff` counts at most one difference per position |
| `Mirrors.DiffSymmetric` | 2023/day13/run.py:22-23 | rows of one length differ in as many cells either way round |
| `Mirrors.DiffZero` | 2023/day13/run.py:22-23 | rows of one length differ nowhere exactly when they are equal |
| `Mirrors.Partial` | 2023/day13/run.py:37-41 | the smudges over the first mirrored row pairs; `Mirrors.PartialMonotone` and `Mirrors.PartialZero` state its meaning |
| `Mirrors.IsMirror` | 2023/day13/run.py:32-42 | a mirror line with exactly the smudge target; `Mirrors.MirrorExact` states the smudge-free case and `Mirrors.MirrorScan` ties the inner loop to it |
| `Mirrors.PartialMonotone` | 2023/day13/run.py:37-41 | more mirrored pairs never have fewer smudges, so the early `break` loses no match |
| `Mirrors.MirrorExact` | 2023/day13/run.py:37-42 | without smudges, a mirror is a line whose `min(row, rows - row)` mirrored row pairs are all equal |
| `Mirrors.PartialZero` | 2023/day13/run.py:37-38 | the first `n` pairs have no smudge iff each of them is equal |
| `Mirrors.FirstMirror` | 2023/day13/run.py:32-48 | the first mirror line at `row` or later, with the smudge target, or 0 when none is |
| `Mirrors.Reflection` | 2023/day13/run.py:25-48 | the smallest row in `1 .. rows - 1` whose mirrored pairs differ in exactly the smudge target, or 0 when none does |
| `Mirrors.Process` | 2023/day13/run.py:25-48 | `process`'s loops return `Reflection` |
| `Mirrors.MirrorScan` | 2023/day13/run.py:35-42 | the inner loop ends with `matches` and exactly `target` smudges iff the row is a mirror with that many smudges |
| `Mirrors.Score` | 2023/day13/run.py:71 | the score `100 * process(p) + process(transpose(p))` fails (IndexError in `transpose`) iff the pattern is empty |
| `Rocks.MakeGrid` | 2023/day14/run.py:17-22 | the `Grid` constructor succeeds iff the content is non-empty and rectangular, and then keeps the content as given |
| `Rocks.TrailingStart` | 2023/day14/run.py:31-37 | the start of the empty run at the end of a tipped prefix: every cell from it on is empty and the cell before it is not |
| `Rocks.FirstEmpty` | 2023/day14/run.py:31-37 | `first_empty`, when set, points at an empty cell of the tipped prefix |
| `Rocks.FirstEmptyAfterSquare` | 2023/day14/run.py:34-35 | a square rock resets `first_empty` to `None` |
| `Rocks.FirstEmptyAfterEmpty` | 2023/day14/run.py:36-37 | an empty cell sets `first_empty` to itself unless it was already set |
| `Rocks.FirstEmptyAfterBlockedRound` | 2023/day14/run.py:38-39 | a round rock with no empty cell before it leaves `first_empty` at `None` |
| `Rocks.FirstEmptyAfterDroppedRound` | 2023/day14/run.py:39-43 | after a round rock is swapped into `first_empty`, the cursor moves one cell on |
| `Rocks.Tilt` | 2023/day14/run.py:30-43 | tipping a line keeps its length and keeps every square rock exactly where it was |
| `Rocks.TiltPermutes` | 2023/day14/run.py:30-43 | tipping a line is a permutation of its cells: no rock is created or lost |
| `Rocks.DropPermutes` | 2023/day14/run.py:40-42 | the swap of a round rock with an empty cell keeps the line's contents |
| `Rocks.TiltSettles` | 2023/day14/run.py:30-43 | after tipping no round rock sits right after an empty cell: every rock rests on the edge, a square rock or another round rock |
| `Rocks.SettledMeansBlocked` | 2023/day14/run.py:30-43 | in a tipped line a square rock separates every empty cell from any later round rock |
| `Rocks.TiltExtend` | 2023/day14/run.py:32-43 | tipping one more cell: a round rock drops into the empty run, any other cell stays where it is |
| `Rocks.LineAfterDrop` | 2023/day14/run.py:38-43 | after the swap at cell `p` the line is the tipped prefix up to `p` followed by the untouched rest |
| `Rocks.LineAfterKeep` | 2023/day14/run.py:33-39 | a cell that is not swapped extends the tipped prefix by itself |
| `Rocks.CellRow` | 2023/day14/run.py:30-32 | the row of a place along a column or row lies inside the grid, for all four directions (including the reversed ranges of `tip_south` and `tip_east`) |
| `Rocks.CellCol` | 2023/day14/run.py:54-56 | the column of a place along a line lies inside the grid, for all four directions |
| `Rocks.LineOf` | 2023/day14/run.py:30-32 | every cell belongs to one of the lines the outer loop visits |
| `Rocks.PosOf` | 2023/day14/run.py:78-80 | a cell's place along its line maps back to the same row and column |
| `Rocks.CellRoundTrip` | 2023/day14/run.py:102-104 | from a line and a place to a cell and back gives the same line and place |
| `Rocks.Line` | 2023/day14/run.py:30-33 | a line read from the grid has one cell per place along it |
| `Rocks.Tilted` | 2023/day14/run.py:28-49 | tipping the grid keeps its number of rows and columns |
| `Rocks.TiltedLine` | 2023/day14/run.py:28-49 | every line of the tipped grid is that line of the original tipped on its own |
| `Rocks.TiltedCell` | 2023/day14/run.py:28-49 | each cell of the tipped grid is its place in its own tipped line |
| `Rocks.TiltedKeepsRocks` | 2023/day14/run.py:28-49 | tipping the grid keeps every square rock in place, keeps each line's multiset of cells and leaves every line settled |
| `Rocks.Tip` | 2023/day14/run.py:27-121 | `tip_north`, `tip_west`, `tip_south` and `tip_east` return the tipped grid (`Tilted`) and leave the grid they were called on unchanged |
| `Rocks.TipLine` | 2023/day14/run.py:31-43 | the inner loop tips one line of the copied content in place and leaves every other cell alone |
| `Rocks.TipCell` | 2023/day14/run.py:33-43 | one step of the inner loop keeps the loop's invariant: the line is tipped up to the cell just processed |
| `Rocks.DropRock` | 2023/day14/run.py:40-43 | the swap changes exactly the two cells of the line it names |
| `Rocks.Snapshot` | 2023/day14/run.py:29 | the copy of the content holds every cell of the grid |
| `Rocks.TipLineStart` | 2023/day14/run.py:30-32 | before the inner loop the line is the untipped line and `first_empty` is `None` |
| `Rocks.TipLineDone` | 2023/day14/run.py:30-43 | when the inner loop ends the line equals the tipped line and every other cell is unchanged |
| `Rocks.IterateAdd` | 2023/day14/run.py:127-131 | cycling `m` times then `n` times is cycling `m + n` times |
| `Rocks.Cycle` | 2023/day14/run.py:123-125 | `cycle` is north, west, south, then east tipping, and keeps the grid's size |
| `Rocks.MultiCycle` | 2023/day14/run.py:127-131 | `multicycle(n)` is `cycle` applied exactly `n` times |
| `Rocks.ColumnLoadBounds` | 2023/day14/run.py:133-139 | a column's load is between one and `rows` per round rock in it |
| `Rocks.TotalLoad` | 2023/day14/run.py:133-139 | the summed `rows - row` over the round rocks; `Rocks.Load` ties the loop to it and `Rocks.TipNorthRaisesLoad` states that tipping north never lowers it |
| `Rocks.Load` | 2023/day14/run.py:133-139 | `load` sums `rows - row` over the round rocks (`TotalLoad`) |
| `Rocks.GridEquals` | 2023/day14/run.py:144-153 | `__eq__` is true iff the two grids have the same size and the same cell everywhere |
| `Rocks.Periodic` | 2023/day14/run.py:168-207 | once the cycled grids repeat after `l` steps from index `m`, they repeat every multiple of `l` from every later index |
| `Rocks.MeetingPoint` | 2023/day14/run.py:176-180 | in an eventually periodic sequence some `b >= 1` has `x_b == x_2b`, so the first loop of `floyd` ends |
| `Rocks.Meet` | 2023/day14/run.py:176-180 | the first loop of `floyd` stops at some `nu >= 1` with tortoise and hare both equal to `x_nu == x_2nu` |
| `Rocks.NoRepeatOneMore` | 2023/day14/run.py:191-196 | each failed comparison in the second loop extends the range of indices that do not repeat |
| `Rocks.CycleLength` | 2023/day14/run.py:201-205 | the third loop finds the least `lam >= 1` at which `x_mu` recurs |
| `Rocks.Floyd` | 2023/day14/run.py:168-207 | `floyd` returns `lam >= 1` with `x_mu == x_(mu+lam)`, no earlier recurrence of `x_mu`, and no index before `mu` that repeats after `lam` steps |
| `Rocks.NoEarlierRepeat` | 2023/day14/run.py:190-207 | no index before `mu` repeats after `lam` steps |
| `Rocks.FirstRepeat` | 2023/day14/run.py:182-196 | a repeat after `lam` steps is also one after `nu` steps, which is why `mu` is the first repeating index |
| `Rocks.SkipCycles` | 2023/day14/run.py:229-233 | from `mu` on, the grid after `n` cycles is the one after `mu + (n - mu) % lam` |
| `Rocks.InAllLines` | 2023/day14/run.py:16-22 | every line of `n` cells is among the finitely many lines of length `n` |
| `Rocks.InAllSheets` | 2023/day14/run.py:16-22 | every rectangular grid is among the finitely many grids of its size |
| `Rocks.VisitedMembers` | 2023/day14/run.py:168-207 | every value visited in the first `k` steps is `x_i` for some `i < k` |
| `Rocks.StaysIn` | 2023/day14/run.py:168-207 | a sequence started in a set that the step maps into itself never leaves it |
| `Rocks.Collect` | 2023/day14/run.py:168-207 | either two of the first `k` values coincide, or they are `k` distinct members of the set |
| `Rocks.EventuallyRepeats` | 2023/day14/run.py:168-207 | a sequence that stays in a finite set eventually repeats (the pigeonhole principle) |
| `Rocks.GridsRepeat` | 2023/day14/run.py:223 | the cycled grids repeat, so `floyd`'s precondition holds for `grid.cycle()` on every grid |
| `Rocks.CyclesWithSkipping` | 2023/day14/run.py:222-233 | part 2's grid, with or without skipping whole loops, is exactly the grid after `cycles` cycles |
| `Rocks.LineLoadDrop` | 2023/day14/run.py:137-138 | moving a round rock into an empty place `f` adds that place's weight to the line's load |
| `Rocks.TiltRaisesLoad` | 2023/day14/run.py:30-43 | tipping a line toward its start never lowers its load |
| `Rocks.ColumnLoadIsLineLoad` | 2023/day14/run.py:135-138 | a column's load equals the load of the column read as a northward line |
| `Rocks.LoadOfColumnsRaised` | 2023/day14/run.py:135-138 | tipping north never lowers the summed load of the first `cols` columns |
| `Rocks.ColumnRaised` | 2023/day14/run.py:136-138 | tipping north never lowers one column's load |
| `Rocks.TipNorthRaisesLoad` | 2023/day14/run.py:133-139 | tipping north never lowers the load on the north beams |
| `Rocks.Part1AsWritten` | 2023/day14/run.py:234-237 | the script as written prints the load of the untipped grid, because `tip_north`'s result is dropped |
| `Rocks.Part1AsWrittenMissesTip` | 2023/day14/run.py:234-237 | on the grid `.` over `O` the printed load is 1 where the tipped grid's is 2 |
| `Rocks.Part1` | 2023/day14/run.py:234-237 | part 1 as intended: the load of the grid tipped north, which is at least the untipped load |
| `AsciiHash.Hash` | 2023/day15/hash.py:6-12 | HASH always lies in 0..255 |
| `AsciiHash.HashEmpty` | 2023/day15/hash.py:6-12 | the empty string hashes to 0 |
| `AsciiHash.HashStep` | 2023/day15/hash.py:8-11 | one more character adds its code, multiplies by 17 and reduces modulo 256 |
| `AsciiHash.HashOf` | 2023/day15/hashmap.py:6-12 | the loop of `HASH` computes the fold, a value below 256 |
| `AsciiHash.HashParts` | 2023/day15/hash.py:14-16 | the line is stripped of surrounding whitespace, then each comma-separated part is hashed on its own, one value per part |
| `AsciiHash.LineFeedStripped` | 2023/day15/hash.py:15 | the line feed ending a line read from input is stripped away and never hashed into the last part |
| `AsciiHash.HashLine` | 2023/day15/hash.py:14-16 | the line `HASH` with its line feed is the one part `HASH`, which hashes to 52 |
| `AsciiHash.WordLine` | 2023/day15/hash.py:15 | a word with no whitespace at either end and no comma, read with its line feed, is the one part of the line |
| `AsciiHash.StripWordLine` | 2023/day15/hash.py:15 | a word with no whitespace at either end, read with its line feed, strips back to the word |
| `LensLibrary.FindLabel` | 2023/day15/hashmap.py:20-24 | the `for ... break` search finds the first slot holding the label, or reports that no slot does |
| `LensLibrary.Without` | 2023/day15/hashmap.py:30-39 | the filter on a label leaves no lens with that label |
| `LensLibrary.PutLabels` | 2023/day15/hashmap.py:25-29 | `label=focal` keeps every slot's label and at most appends the new lens |
| `LensLibrary.SameFind` | 2023/day15/hashmap.py:20-24 | a search that succeeds on a box succeeds the same way on any extension with the same labels |
| `LensLibrary.PutLookup` | 2023/day15/hashmap.py:17-29 | after `label=focal` the box holds `focal` for the label and the same focal length for every other label |
| `LensLibrary.PutKeepsSlots` | 2023/day15/hashmap.py:26-29 | `label=focal` replaces an existing label in its own slot and appends a new one at the end |
| `LensLibrary.PutKeepsValid` | 2023/day15/hashmap.py:17-29 | `label=focal` keeps labels unique and every lens in the box its label hashes to |
| `LensLibrary.RemoveIsWithout` | 2023/day15/hashmap.py:30-39 | removing keeps every other lens in its order: it is the filter on the label |
| `LensLibrary.NoneWithout` | 2023/day15/hashmap.py:38-39 | removing an absent label changes nothing |
| `LensLibrary.RemoveLookup` | 2023/day15/hashmap.py:30-39 | after `label-` the label is gone and every other label keeps its focal length |
| `LensLibrary.FocalCons` | 2023/day15/hashmap.py:21-24 | the lookup in a box with one more lens in front |
| `LensLibrary.WithoutLookup` | 2023/day15/hashmap.py:30-39 | filtering out a label hides exactly that label from lookups |
| `LensLibrary.RemoveKeepsValid` | 2023/day15/hashmap.py:30-39 | `label-` keeps labels unique and every lens in the box its label hashes to |
| `LensLibrary.Step` | 2023/day15/hashmap.py:16-39 | one step keeps 256 boxes; it fails on a part whose `=` split does not unpack into two names or whose focal length is not an integer |
| `LensLibrary.AssignStep` | 2023/day15/hashmap.py:17-29 | the `=` half keeps 256 boxes |
| `LensLibrary.StepKeepsValid` | 2023/day15/hashmap.py:16-39 | a step changes at most the boxes of the labels it names and keeps the table well formed |
| `LensLibrary.Steps` | 2023/day15/hashmap.py:15-39 | the steps of a line in order keep 256 boxes, stopping at the first failure as the exception does |
| `LensLibrary.SlotPowers` | 2023/day15/hashmap.py:48-50 | one power per lens of the box |
| `LensLibrary.PowerAt` | 2023/day15/hashmap.py:47-50 | one power per lens, and the lens in slot `j` of box `b` prints `(b+1)*(j+1)*focal` after every lens of the earlier boxes |
| `LensLibrary.PowersLength` | 2023/day15/hashmap.py:47-50 | one printed power per lens |
| `LensLibrary.Boxes.constructor` | 2023/day15/hashmap.py:14 | `[[] for _ in range(256)]`: 256 empty boxes |
| `LensLibrary.Boxes.Find` | 2023/day15/hashmap.py:20-24 | the search loop returns `FindLabel` |
| `LensLibrary.Boxes.Assign` | 2023/day15/hashmap.py:17-29 | `label=focal` changes only box `HASH(label)`, to `Put` of it, and keeps the table well formed |
| `LensLibrary.Boxes.Delete` | 2023/day15/hashmap.py:30-39 | `label-` changes only box `HASH(label)`, to `Remove` of it, and keeps the table well formed |
| `LensLibrary.Boxes.Apply` | 2023/day15/hashmap.py:16-39 | one part applies `Step`, and on failure nothing has changed |
| `LensLibrary.Boxes.ApplyAll` | 2023/day15/hashmap.py:15-39 | the parts of a line in order, stopping at the first failure |
| `LensLibrary.Boxes.ApplyLine` | 2023/day15/hashmap.py:15-16 | an input line is stripped of surrounding whitespace and split at commas before its parts are applied in order |
| `LensLibrary.Boxes.FocusingPowers` | 2023/day15/hashmap.py:47-50 | the printing loop yields `AllPowers`, box by box and slot by slot |
| `Beams.Next` | 2023/day16/grid.py:17-26 | `Direction.next` moves exactly one row or one column, and which one and which way identifies the heading |
| `Beams.NextThenBack` | 2023/day16/grid.py:17-26 | a step one way and then the opposite way returns to the starting cell |
| `Beams.BeamNext` | 2023/day16/grid.py:95-96 | `Beam.next` keeps the heading and moves one step along it |
| `Beams.Turn` | 2023/day16/grid.py:98-99 | `Beam.turn` takes the new heading and moves one step along it from the beam's own cell |
| `Beams.TurnStraightIsNext` | 2023/day16/grid.py:95-99 | turning into the current heading is the same as moving on |
| `Beams.Alter` | 2023/day16/grid.py:41-69 | every outgoing beam is a turn from the entered cell; a splitter hit broadside yields two beams (north/south, west/east) and otherwise one; a non-mirror single beam passes straight through; a mirror always swaps horizontal and vertical |
| `Beams.MirrorsReflect` | 2023/day16/grid.py:50-67 | `/` sends a north-bound beam east, the two mirrors turn every beam opposite ways, and each mirror is reversible |
| `Beams.CheckGrid` | 2023/day16/grid.py:116-120 | the constructor succeeds exactly on a non-empty rectangular content (`content[0]` raises on none, unequal rows raise `ValueError`) |
| `Beams.Grid.constructor` | 2023/day16/grid.py:116-122 | a new grid holds the content with no cell energized |
| `Beams.Grid.Inbounds` | 2023/day16/grid.py:124-125 | `inbounds` holds exactly for the cells of the grid |
| `Beams.Grid.Successors` | 2023/day16/grid.py:127-135 | a beam off the grid yields nothing, one on it yields the beams its fixture's `alter` returns |
| `Beams.Grid.StepUnion` | 2023/day16/grid.py:147-149 | propagating a union of frontiers is the union of propagating each |
| `Beams.Grid.StepAddOne` | 2023/day16/grid.py:148-149 | propagating one more beam adds exactly its successors |
| `Beams.Grid.StepNear` | 2023/day16/grid.py:127-135 | propagation never leads more than one step off the grid, so the loop's beam sets are bounded |
| `Beams.Grid.StepWithin` | 2023/day16/grid.py:147-152 | propagation from inside a closed set stays inside it |
| `Beams.Grid.CellsUnion` | 2023/day16/grid.py:130 | the energized cells of a union of beam sets are the union of their cells |
| `Beams.Grid.CellsAddOne` | 2023/day16/grid.py:128-130 | one more beam energizes its own cell exactly when that cell is on the grid |
| `Beams.Grid.ExploreRound` | 2023/day16/grid.py:142-152 | a round of the `while` keeps the exploration invariant and either finds no new beam or leaves fewer beams unseen, so the loop ends |
| `Beams.Grid.ExploreKeeps` | 2023/day16/grid.py:147-152 | `beams = nextbeams - seen; seen.update(beams)` keeps every seen beam inside every closed set holding the start, and every propagated beam's successors seen |
| `Beams.Grid.ExploreShrinks` | 2023/day16/grid.py:151-152 | a round that finds new beams shrinks the finite set of beams not yet seen |
| `Beams.Grid.ExploreDone` | 2023/day16/grid.py:142 | when the frontier is empty the seen beams are the least closed set holding the start beams |
| `Beams.Grid.CountRows` | 2023/day16/grid.py:150 | the energized count over the first `i` rows is at most `i * cols` |
| `Beams.Grid.CountInRow` | 2023/day16/grid.py:150 | the energized count over the first `j` columns of a row is at most `j` |
| `Beams.Grid.CountRowsNone` | 2023/day16/grid.py:138-139 | with no cell energized the count is 0, as `energized = 0` before the loop |
| `Beams.Grid.CountInRowNone` | 2023/day16/grid.py:138-139 | a row with no energized cell counts 0 |
| `Beams.Grid.CountEnergized` | 2023/day16/grid.py:150 | the nested `sum` loop computes the count of energized cells |
| `Beams.Grid.Propagate` | 2023/day16/grid.py:127-135 | `propagate` returns the beam's successors and energizes exactly the beam's cell if it is on the grid, leaving every other flag alone |
| `Beams.Grid.Round` | 2023/day16/grid.py:147-149 | the `for` over the frontier returns the union of the successors and energizes exactly the cells of the frontier |
| `Beams.Grid.EnergizeRound` | 2023/day16/grid.py:142-152 | one loop pass keeps the state of `energize`; an empty new frontier leaves `seen` unchanged, otherwise fewer beams remain unseen |
| `Beams.Grid.Energize` | 2023/day16/grid.py:137-160 | the seen beams are the least closed set holding the start beams, the energized cells are exactly their on-grid cells, and the result is their count, at most `rows * cols` |
| `Beams.Grid.Rounds` | 2023/day16/grid.py:142-160 | from a cleared grid, the loop ends with the least closed set seen, its cells energized and their count returned |
| `Crucible.Next` | 2023/day17/grid.py:16-25 | `Direction.next` keeps the column for north/south and the row for east/west, and moves the right way |
| `Crucible.Reverse` | 2023/day17/grid.py:27-36 | `reverse` never returns its argument |
| `Crucible.ReverseUndoes` | 2023/day17/grid.py:16-36 | `reverse` is an involution, and a step then a step in reverse returns home |
| `Crucible.AllCoordinatesInBounds` | 2023/day17/grid.py:123-124 | `inbounds` holds exactly for the coordinates of the grid |
| `Crucible.AdjacentDirections` | 2023/day17/grid.py:137-141 | a node's `adjacent` keys are the directions, in enum order, whose neighbour is in bounds |
| `Crucible.AdjacentAreNeighbours` | 2023/day17/grid.py:133-141 | every in-bounds orthogonal neighbour of a node is linked, and only those |
| `Crucible.KeyLessIsStrict` | 2023/day17/grid.py:143 | the sort key `(weight is None, weight)` is a strict order: weighted nodes first, by weight |
| `Crucible.SequentialRerank` | 2023/day17/grid.py:82-99 | `sequential` depends only on the `prev` links, not on the ranking that shows the recursion ends |
| `Crucible.SequentialFrame` | 2023/day17/grid.py:82-99 | re-linking a node that nobody links to leaves every other node's `sequential` alone |
| `Crucible.Trail` | 2023/day17/grid.py:173-178 | the chain of `prev` links back from a node ends at the node and starts at a node without a link |
| `Crucible.TrailRerank` | 2023/day17/grid.py:175-178 | the chain depends only on the links |
| `Crucible.TrailFrame` | 2023/day17/grid.py:175-178 | re-linking a node nobody links to leaves every other chain alone |
| `Crucible.Search.Loss` | 2023/day17/grid.py:128 | a node's `loss` is the grid's digit at its coordinate |
| `Crucible.Search.TrailIsPath` | 2023/day17/grid.py:154-158 | every weighted node's chain of links is a walk from the source whose heat loss is the node's weight |
| `Crucible.Search.TrailRun` | 2023/day17/grid.py:82-99 | the run in one direction that ends a node's chain is its `sequential` count along the reverse direction |
| `Crucible.Search.TrailSteady` | 2023/day17/grid.py:153 | where `sequential(dir.reverse()) < 3` guarded every link, no chain goes more than three steps in one direction |
| `Crucible.Search.PathExtends` | 2023/day17/grid.py:154-158 | a walk to `u`, then one step to `v`, is a walk to `v` costing `u.weight + v.loss` |
| `Crucible.Search.PopKeeps` | 2023/day17/grid.py:145 | `unvisited.pop(0)` takes a node of least key and keeps the links, the run limit and every `sequential` count |
| `Crucible.Search.PopBookkept` | 2023/day17/grid.py:145 | moving the first waiting node to the visited ones keeps each node visited or waiting, never both |
| `Crucible.Search.PopRanked` | 2023/day17/grid.py:145 | ranking the popped node after all others keeps the links and their runs |
| `Crucible.Search.RelinkKeeps` | 2023/day17/grid.py:156-158 | setting `v.weight = alt; v.prev = (dir.reverse(), u)` keeps weights as path costs, links pointing back and the run limit |
| `Crucible.Search.RelinkLinked` | 2023/day17/grid.py:158 | the new link points one step back to the visited `u` |
| `Crucible.Search.RelinkLimited` | 2023/day17/grid.py:153-158 | only the re-linked node's runs change, and its run in `dir` is one longer than `u`'s |
| `Crucible.Search.BookkeptRelink` | 2023/day17/grid.py:156-158 | re-weighting a node keeps each node visited or waiting |
| `Crucible.Search.RelinkChanges` | 2023/day17/grid.py:156-158 | re-weighting a waiting node with a lower weight changes nothing else |
| `Crucible.Search.LoweredTwice` | 2023/day17/grid.py:149-163 | two re-weightings through the same `u` compose to one |
| `Crucible.Search.ResortKeeps` | 2023/day17/grid.py:166 | the re-sort keeps the waiting nodes and puts them in key order |
| `Crucible.Search.StillRelaxed` | 2023/day17/grid.py:149-163 | lowering other weights keeps an already relaxed neighbour relaxed |
| `Crucible.Search.RelinkStep` | 2023/day17/grid.py:152-158 | re-weighting the neighbour in one more direction extends a partial pass over `u.adjacent` |
| `Crucible.Search.RelinkTracks` | 2023/day17/grid.py:156-158 | the re-weighting keeps the record of what the pass so far has changed |
| `Crucible.Search.AllStillRelaxed` | 2023/day17/grid.py:149-163 | the neighbours already relaxed stay relaxed and the current one is relaxed afresh |
| `Crucible.Search.KeepStep` | 2023/day17/grid.py:152-156 | leaving a neighbour alone extends a partial pass when it is already relaxed |
| `Crucible.Search.RelaxOne` | 2023/day17/grid.py:150-165 | one direction of `for dir in u.adjacent`: the neighbour is re-weighted through `u` when waiting, under the run limit and lighter that way; it fails exactly when it would add to `u.weight` being None (the TypeError) |
| `Crucible.Search.RelaxEach` | 2023/day17/grid.py:149-165 | the `for` loop keeps the search invariant, only lowers weights through `u`, leaves `u`'s runs alone, and on success every neighbour is relaxed; it fails only when `u` has no weight and some neighbour would be re-weighted |
| `Crucible.Search.Visit` | 2023/day17/grid.py:144-166 | one round pops a node of least key, relaxes its neighbours and re-sorts: the invariant holds with one more node visited and the waiting ones sorted |
| `Crucible.Search.StartKeeps` | 2023/day17/grid.py:142 | before the loop only the source is weighted, with its own loss, and nothing is linked or visited |
| `Crucible.Search.Explore` | 2023/day17/grid.py:142-166 | the `while` loop leaves the source weighted with its own loss, links pointing back, weights as path costs and the run limit kept; on success every node was visited |
| `Crucible.Row` | 2023/day17/grid.py:127-131 | one row of the `unvisited` comprehension lists each coordinate of the row once |
| `Crucible.RowMajor` | 2023/day17/grid.py:127-131 | the `unvisited` comprehension lists every coordinate of the grid once |
| `Crucible.DistinctAppend` | 2023/day17/grid.py:127-131 | rows with no coordinate in common concatenate without repetition |
| `Crucible.LinkAll` | 2023/day17/grid.py:133-141 | the adjacency loops give every node its in-bounds directions in enum order |
| `Crucible.LinkOne` | 2023/day17/grid.py:137-141 | the `for dir in Direction` loop for one node collects its in-bounds directions in enum order |
| `Crucible.Grid.MinLoss` | 2023/day17/grid.py:126-182 | fails exactly with `SourceError` for a source off the grid (the IndexError of `self.loss[src.row][src.col]` past Python's index range, the KeyError of `nodes[src]` for a source indexing from the end), fails for a destination off the grid, fails only with the five errors the source raises, and on success returns the heat loss of a walk from source to destination that never goes more than three steps in one direction |
| `Crucible.NewGrid` | 2023/day17/grid.py:116-121 | the constructor succeeds exactly on a non-empty rectangular grid and keeps its losses |
| `Workflows.IndexKeys` | 2023/day19/run.py:278 | the engine's dictionary has exactly the workflows' names as keys |
| `Workflows.IndexLast` | 2023/day19/run.py:278 | a name maps to its last definition in the list |
| `Workflows.LaterDefinitionWins` | 2023/day19/run.py:277-278 | a later workflow of the same name replaces an earlier one |
| `Workflows.Compare` | 2023/day19/run.py:295-303 | `process_comparison`; `Workflows.CompareFirst` states that the first rating of the property decides |
| `Workflows.Route` | 2023/day19/run.py:288-293 | the rule loop of `process_workflow`; `Workflows.RouteFirstFiring` and `Workflows.RouteTargets` state where it sends the part |
| `Workflows.Process` | 2023/day19/run.py:286-293 | `process_workflow` with the KeyError for an unknown name; `Workflows.ProcessWorkflow` ties the loop to it |
| `Workflows.CompareFirst` | 2023/day19/run.py:295-303 | `process_comparison` decides on the first rating of the comparison's property, and returns False when the part has no rating of it |
| `Workflows.ProcessComparison` | 2023/day19/run.py:295-303 | the loop with its early returns computes `Compare`, including the unknown-operator error |
| `Workflows.RouteFirstFiring` | 2023/day19/run.py:288-293 | a workflow sends the part to the target of the first rule that fires, to `R` when none does, and raises the comparison's error when one raises before any rule fires |
| `Workflows.RouteTargets` | 2023/day19/run.py:288-293 | a workflow sends a part only to `R` or to a target of one of its rules |
| `Workflows.ProcessWorkflow` | 2023/day19/run.py:286-293 | the rule loop with early returns computes `Process`, a KeyError for an unknown workflow name |
| `Workflows.Steps` | 2023/day19/run.py:280-284 | the `accept` loop, fuel-bounded; `Workflows.StepsSettled`, `Workflows.SelfRouteNeverEnds` and `Workflows.UnknownWorkflowRaises` state its behaviour |
| `Workflows.StepsSettled` | 2023/day19/run.py:282-283 | once the `accept` loop reaches `A` or `R` or raises, more passes change nothing |
| `Workflows.SelfRouteNeverEnds` | 2023/day19/run.py:282-283 | a workflow that sends the part back to itself keeps the `while` loop going forever |
| `Workflows.UnknownWorkflowRaises` | 2023/day19/run.py:283-287 | a route that reaches an unknown workflow name raises a KeyError |
| `Workflows.AcceptPart` | 2023/day19/run.py:280-284 | `accept` starts at `in` and follows routes until `A` or `R`: it computes `Steps` from `in` |
| `Workflows.TotalDefined` | 2023/day19/run.py:311-312 | the part-1 total exists exactly when every part's run ends with a verdict, and is at most the sum of all ratings |
| `Workflows.FailureSticks` | 2023/day19/run.py:311 | the first part whose run raises decides the outcome; later parts are never looked at |
| `Workflows.AllRejectedTotal` | 2023/day19/run.py:311-312 | with every part rejected the total is zero |
| `Workflows.AllAcceptedTotal` | 2023/day19/run.py:311-312 | with every part accepted the total is the sum of all their ratings |
| `Workflows.TotalStep` | 2023/day19/run.py:311-312 | one more part adds its rating sum when accepted and nothing when rejected |
| `Workflows.SumRatings` | 2023/day19/run.py:312 | the loop sums exactly the part's rating values |
| `Workflows.Tally` | 2023/day19/run.py:311-312 | one part of the comprehension extends the running total as `AcceptedTotal` says |
| `Workflows.Part1` | 2023/day19/run.py:308-313 | part 1 builds the engine and returns `AcceptedTotal` over all parts |
| `PulseNetwork.ParseFrom` | 2023/day20/run.py:98-104 | succeeds iff the name starts with `%` or `&` or is exactly `broadcaster`; `%`/`&` give a FlipFlop (off) / Conjunction (nothing received) named without the prefix, `broadcaster` the Broadcaster; destinations kept, no upstreams; otherwise the "Unknown module type" error |
| `PulseNetwork.SplitArrow` | 2023/day20/run.py:96 | `split(" -> ")` always gives at least one piece; `PulseNetwork.ArrowAlone` and `PulseNetwork.ArrowFirst` state where it cuts |
| `PulseNetwork.ArrowAlone` | 2023/day20/run.py:96 | a string without `>` holds no arrow and stays one piece |
| `PulseNetwork.ArrowFirst` | 2023/day20/run.py:96 | a first side without spaces splits off whole at the arrow after it |
| `PulseNetwork.StripAll` | 2023/day20/run.py:97 | `[dest.strip() for dest in ...]`: one stripped destination per piece, in order |
| `PulseNetwork.Destinations` | 2023/day20/run.py:97 | the comma split of the right side, each piece stripped |
| `PulseNetwork.ParseLine` | 2023/day20/run.py:95-104 | `parse_from` on an input line: it succeeds iff the stripped line has exactly one arrow (the unpacking ValueError otherwise) and `ParseFrom` accepts the name with the stripped destinations |
| `PulseNetwork.NoArrowFails` | 2023/day20/run.py:96 | a line with no arrow is the unpacking ValueError |
| `PulseNetwork.ParseLineOfFormat` | 2023/day20/run.py:95-97 | a line written as the input writes it (`name -> a, b, c`) reads back as `ParseFrom` of the name and the stripped destinations |
| `PulseNetwork.FormatSides` | 2023/day20/run.py:96 | such a line is its own strip and splits into the name and the destination list |
| `PulseNetwork.Receive` | 2023/day20/run.py:122-178 | per kind: destinations and upstreams unchanged, the kind's class kept; Broadcaster and Unspecified unchanged; a Receiver becomes received on Low; a pulse is sent exactly when the module is a Broadcaster, a Conjunction, or a FlipFlop hit by Low |
| `PulseNetwork.Fanout` | 2023/day20/run.py:86-88 | `send` queues one pulse per destination, in destination order, each from the sender at the given level |
| `PulseNetwork.Step` | 2023/day20/run.py:55-60 | one delivery keeps the set of module names |
| `PulseNetwork.StepKeepsValid` | 2023/day20/run.py:55-60 | delivering the head pulse keeps every destination and every queued receiver resolving to a module |
| `PulseNetwork.RunKeepsValid` | 2023/day20/run.py:55-60 | any number of deliveries keep every name resolving |
| `PulseNetwork.StepQueues` | 2023/day20/run.py:55-60 | one delivery changes only the receiver, keeps the rest of the queue at the head, and appends only pulses sent by the receiver |
| `PulseNetwork.Run` | 2023/day20/run.py:55-60 | at most `fuel` deliveries keep the set of module names |
| `PulseNetwork.DeliveryIsFifo` | 2023/day20/run.py:51-57 | the queue is FIFO: the first `k` deliveries are exactly the first `k` queued pulses in order, and the rest of the original queue stays at the head |
| `PulseNetwork.FlipFlopIgnoresHigh` | 2023/day20/run.py:122-124 | a FlipFlop hit by High changes nothing and sends nothing |
| `PulseNetwork.FlipFlopTogglesOnLow` | 2023/day20/run.py:122-129 | a FlipFlop hit by Low flips its state and sends High to every destination if it was off, Low if it was on |
| `PulseNetwork.ConjunctionRemembersAndSends` | 2023/day20/run.py:140-146 | a Conjunction records the sender's level, then sends Low iff every upstream last sent High (a missing entry counts as Low), High otherwise, on every pulse |
| `PulseNetwork.BroadcasterRepeats` | 2023/day20/run.py:149-151 | the Broadcaster passes the received level unchanged to every destination |
| `PulseNetwork.SinksNeverSend` | 2023/day20/run.py:163-178 | Unspecified and Receiver modules send nothing; a Receiver only records a Low pulse |
| `PulseNetwork.ReceivedNeverReverts` | 2023/day20/run.py:168-170 | once a Receiver has seen Low it stays received however long the network runs |
| `PulseNetwork.LinkedResolves` | 2023/day20/run.py:76-84 | after `link`, every destination exists and lists the linker upstream, unknown destinations are fresh Unspecified modules, nothing else changes |
| `PulseNetwork.LinkOneMore` | 2023/day20/run.py:189-190 | linking one more registered module takes the partly linked table to the table linked by one more module, whatever the order |
| `PulseNetwork.LinkedAllResolves` | 2023/day20/run.py:189-190 | after linking every module the table is resolved, each link is recorded at its destination, registered modules keep kind and destinations, new names are Unspecified sinks, and every upstream is a real link |
| `PulseNetwork.SelfLoopNeverDrains` | 2023/day20/run.py:55-60 | draining is not guaranteed to end: with `broadcaster -> a` and `&a -> a` the queue is never empty after any number of deliveries |
| `PulseNetwork.EntriesKeys` | 2023/day20/run.py:181-183 | the registered names are exactly the parsed entries' names |
| `PulseNetwork.EntriesValues` | 2023/day20/run.py:181-183 | each name holds the module of the last entry of that name |
| `PulseNetwork.RegisteredTable` | 2023/day20/run.py:181-187 | before linking the table holds the entries' names and, in part 2, `rx` as an unreceived Receiver; every other name holds its last entry's module |
| `PulseNetwork.Network.constructor` | 2023/day20/run.py:27-28 | both globals start empty |
| `PulseNetwork.Network.Register` | 2023/day20/run.py:183 | the name now maps to the module (replacing an earlier one); the queue is unchanged |
| `PulseNetwork.Network.Send` | 2023/day20/run.py:51-52 | the queue grows by exactly `Fanout` at its tail; modules unchanged |
| `PulseNetwork.Network.Link` | 2023/day20/run.py:76-84 | the table becomes `Linked(old table, name, destinations)`; the queue is unchanged |
| `PulseNetwork.Network.LinkAll` | 2023/day20/run.py:189-190 | the table becomes `LinkedAll` of the registered table |
| `PulseNetwork.Network.DeliverNext` | 2023/day20/run.py:56-60 | the state becomes `Step` of the old state |
| `PulseNetwork.Network.ProcessQueuedPulses` | 2023/day20/run.py:54-60 | the state becomes `Run(old state, fuel)`, every name still resolves, and `drained` iff the queue is empty |
| `PulseNetwork.Network.Push` | 2023/day20/run.py:158-160 | one Low pulse from the button to `broadcaster` is queued and the queue is drained: the state is `Run` of that |
| `PulseNetwork.Network.Build` | 2023/day20/run.py:181-193 | succeeds iff every entry parses; the table is then `Linked(LinkedAll(Registered(entries, part2)), button, [broadcaster])`, every name resolves, the queue is empty and `broadcaster` lists the button upstream |
| `StepCounter.ContentOf` | 2023/day21/run.py:17-21 | `Content(c)` accepts exactly `.`, `#`, `S` and `O` and gives the content with that character; any other character is a ValueError |
| `StepCounter.ContentRoundTrip` | 2023/day21/run.py:17-21 | converting a content's own character gives the content back |
| `StepCounter.Next` | 2023/day21/run.py:51-60 | `Direction.next` moves exactly one row or one column, by one |
| `StepCounter.DirectionsDistinct` | 2023/day21/run.py:45-60 | the four directions lead to four different cells |
| `StepCounter.NewGrid` | 2023/day21/run.py:69-74 | the constructor raises IndexError exactly on no rows, ValueError exactly on rows of unequal length, and otherwise keeps the content |
| `StepCounter.Set` | 2023/day21/run.py:127-131 | `content[row][col] = v` changes that one cell and keeps every other |
| `StepCounter.PyIndex` | 2023/day21/run.py:130-131 | a Python list index succeeds exactly for `-n <= i < n`, counting negative indices from the end |
| `StepCounter.Landing` | 2023/day21/run.py:130-131 | the cell two index operations land on is in the grid |
| `StepCounter.Mark` | 2023/day21/run.py:129-131 | marking a neighbour keeps the grid's shape |
| `StepCounter.Marks` | 2023/day21/run.py:128-131 | marking the neighbours in direction order keeps the grid's shape |
| `StepCounter.Visit` | 2023/day21/run.py:125-131 | the loop body for one cell keeps the grid's shape |
| `StepCounter.SweepRow` | 2023/day21/run.py:124-131 | the sweep over a row keeps the grid's shape |
| `StepCounter.Sweep` | 2023/day21/run.py:122-131 | the sweep over the rows of a copy keeps the grid's shape |
| `StepCounter.Advanced` | 2023/day21/run.py:121-132 | `advance` yields a valid grid of the same size |
| `StepCounter.VisitCell` | 2023/day21/run.py:125-131 | the direction loop for one cell computes `Visit` |
| `StepCounter.MarksSticks` | 2023/day21/run.py:128-131 | once a mark raises, the remaining directions keep that failure |
| `StepCounter.RowSticks` | 2023/day21/run.py:124-131 | once a step of the sweep raises, the rest of the row keeps that failure |
| `StepCounter.SweepSticks` | 2023/day21/run.py:123-131 | once a row raises, every later row keeps that failure |
| `StepCounter.AdvanceRow` | 2023/day21/run.py:124-131 | the inner `for col` loop computes `SweepRow` |
| `StepCounter.Advance` | 2023/day21/run.py:121-132 | `advance` computes `Advanced` and leaves the grid it is called on alone |
| `StepCounter.MarksKeep` | 2023/day21/run.py:128-131 | marking keeps rock as rock and makes nothing else rock |
| `StepCounter.VisitKeeps` | 2023/day21/run.py:125-131 | visiting a cell keeps rock as rock and clears the start once swept |
| `StepCounter.RowKeeps` | 2023/day21/run.py:124-131 | a row of the sweep keeps rock as rock and clears every start it has passed |
| `StepCounter.SweepKeeps` | 2023/day21/run.py:123-131 | the sweep keeps rock as rock and clears every start it has passed |
| `StepCounter.AdvanceKeepsRock` | 2023/day21/run.py:121-132 | after `advance` rock is exactly where it was and no start is left |
| `StepCounter.MarksFail` | 2023/day21/run.py:128-131 | marking raises an IndexError exactly when one of the directions indexes past the end |
| `StepCounter.VisitFails` | 2023/day21/run.py:125-131 | a cell's step raises exactly when the cell is reached and on the last row or column |
| `StepCounter.EscapesIff` | 2023/day21/run.py:129-130 | north and west wrap around through negative indices or stay inside, while east and south raise from the far edges |
| `StepCounter.RowFails` | 2023/day21/run.py:124-131 | a row of the sweep raises exactly when a reached cell of it, already swept, is on the far edges |
| `StepCounter.SweepFails` | 2023/day21/run.py:123-131 | the sweep raises an IndexError exactly when a reached cell of the rows swept is on the last row or column |
| `StepCounter.AdvanceFails` | 2023/day21/run.py:121-132 | `advance` raises an IndexError exactly when some reached cell sits on the last row or the last column |
| `StepCounter.MarksPlots` | 2023/day21/run.py:128-131 | marking from a cell away from the far edges succeeds and turns exactly its non-rock neighbours into plots |
| `StepCounter.IdlePlots` | 2023/day21/run.py:125 | a cell that is not reached changes nothing |
| `StepCounter.ActivePlots` | 2023/day21/run.py:125-131 | a reached cell is emptied and its non-rock neighbours become plots |
| `StepCounter.VisitPlots` | 2023/day21/run.py:125-131 | each cell's visit keeps the sweep on its expected state |
| `StepCounter.RowPlots` | 2023/day21/run.py:124-131 | a row of the sweep keeps it on its expected state |
| `StepCounter.RowTurn` | 2023/day21/run.py:123-124 | the end of a row and the start of the next are the same point of the sweep |
| `StepCounter.SweepPlots` | 2023/day21/run.py:123-131 | the sweep over isolated reached cells keeps its expected state |
| `StepCounter.AdvanceIsolated` | 2023/day21/run.py:121-132 | when no reached cell is on the far edges or next to another, one `advance` keeps rock, makes every non-rock neighbour of a reached cell a plot and empties the rest |
| `StepCounter.FindAll` | 2023/day21/run.py:96-103 | `find_all`; `StepCounter.FindAllContents` states that it lists exactly the matching cells in row-major order |
| `StepCounter.FindOnly` | 2023/day21/run.py:105-109 | `find_only`; `StepCounter.FindOnlyIff` states when it succeeds |
| `StepCounter.RowMajorJoin` | 2023/day21/run.py:98-103 | two row-major lists, the second wholly after the first, join into one |
| `StepCounter.RowFindsContents` | 2023/day21/run.py:98-103 | one row of the comprehension lists exactly the matching cells of the row, in column order |
| `StepCounter.FindsUpToContents` | 2023/day21/run.py:98-103 | the first `n` rows of the comprehension list exactly their matching cells, in row-major order |
| `StepCounter.FindAllContents` | 2023/day21/run.py:96-103 | `find_all` lists exactly the cells holding the value, each once, in row-major order |
| `StepCounter.FoundOne` | 2023/day21/run.py:105-109 | a single match is the only cell holding the value |
| `StepCounter.FoundTwo` | 2023/day21/run.py:107-108 | two or more matches mean two different cells hold the value |
| `StepCounter.FoundNone` | 2023/day21/run.py:107-108 | no match means no cell holds the value |
| `StepCounter.FindOnlyIff` | 2023/day21/run.py:105-109 | `find_only` returns the one cell holding the value, and raises only when none or two do |
| `StepCounter.Walk` | 2023/day21/run.py:138-139 | `steps` calls of `advance` keep the grid valid and of the same size |
| `StepCounter.WalkKeepsRock` | 2023/day21/run.py:138-139 | rock never moves, however many steps are taken |
| `StepCounter.CountPlots` | 2023/day21/run.py:138-144 | part 1 returns the first IndexError of the steps, or the number of plots after them |
| `StepCounter.WalkSticks` | 2023/day21/run.py:138-139 | once a step raises, later steps keep that failure |
| `LongWalk.Index` | 2023/day23/run.py:39-43 | a direction's enum value indexes it in the declaration order |
| `LongWalk.Values` | 2023/day23/run.py:62-66 | `values()` is every direction, and `values(d)` the directions from `d` on, in order |
| `LongWalk.Reverse` | 2023/day23/run.py:68-77 | `reverse` never returns its argument |
| `LongWalk.ReverseUndoes` | 2023/day23/run.py:45-77 | reversing twice gives the direction back, and a step back undoes a step |
| `LongWalk.Succ` | 2023/day23/run.py:79-86 | `succ` is the next direction in declaration order, and None exactly after West |
| `LongWalk.CanEnter` | 2023/day23/run.py:102-116 | a cell can be entered exactly when it is open, or is a slope entered downhill, or any slope in part 2 |
| `LongWalk.NewGrid` | 2023/day23/run.py:120-125 | the constructor raises IndexError exactly on no rows, ValueError exactly on ragged rows, and otherwise keeps the content |
| `LongWalk.SetChangesOneCell` | 2023/day23/run.py:194-215 | writing a cell changes that cell and no other |
| `LongWalk.SetBack` | 2023/day23/run.py:194-215 | writing back a cell's old value restores the grid |
| `LongWalk.FirstEmpty` | 2023/day23/run.py:130-133 | the column found holds an open cell, and no open cell is found only when none of the columns is open |
| `LongWalk.EmptyInRowIsFirst` | 2023/day23/run.py:126-134 | `_empty_in_row` finds the leftmost open cell of the row, and None exactly when the row has none |
| `LongWalk.FirstOpen` | 2023/day23/run.py:190-192 | the direction found is among those from the hint on |
| `LongWalk.FirstOpenIsFirst` | 2023/day23/run.py:190-192 | the direction found is open and none before it from the hint on is; None means none is open |
| `LongWalk.PushMarks` | 2023/day23/run.py:193-194 | entering marks the entered cell as path if it was open, and changes no other cell |
| `LongWalk.PopUnmarks` | 2023/day23/run.py:214-215 | retreating unmarks the cell left behind if it was marked as path, and changes no other cell |
| `LongWalk.PushKeeps` | 2023/day23/run.py:193-196 | a step along an open direction keeps the walk on the grid and pushes the direction |
| `LongWalk.PopKeeps` | 2023/day23/run.py:209-219 | popping keeps the walk on the grid and goes back to where the shorter walk ends |
| `LongWalk.PopUndoesPush` | 2023/day23/run.py:188-219 | `retreat` undoes `advance`: popping a step just pushed restores the state exactly |
| `LongWalk.AdvancedKeeps` | 2023/day23/run.py:188-207 | advancing keeps the walk on the grid; a successful advance leaves a non-empty stack, a failed one an empty stack back at the start |
| `LongWalk.ReachKeepsInvariant` | 2023/day23/run.py:180 | an invariant every step keeps holds of every state the loop reaches |
| `LongWalk.ReachKeeps` | 2023/day23/run.py:180 | every state the search reaches keeps the walk on the grid |
| `LongWalk.Explore` | 2023/day23/run.py:176-186 | the `while self.advance()` search, fuel-bounded; `LongWalk.ExploreIsUpperBound` and `LongWalk.ExploreIsAttained` state that it is the longest walk reached |
| `LongWalk.ExploreStep` | 2023/day23/run.py:180-185 | one pass of the loop either stops with the best so far or moves on, taking the stack length as the new best when at the end and longer |
| `LongWalk.ReachAfter` | 2023/day23/run.py:180 | after a successful step the states reached are those reached from the new state |
| `LongWalk.ReachAfterGivingUp` | 2023/day23/run.py:180 | once `advance` returns False no further state is reached |
| `LongWalk.ExploreAtLeast` | 2023/day23/run.py:179-186 | the answer is never less than the best length the loop started with |
| `LongWalk.ExploreIsUpperBound` | 2023/day23/run.py:180-185 | no state the search reaches at the end has a longer stack than the answer |
| `LongWalk.ExploreIsAttained` | 2023/day23/run.py:180-185 | unless the answer is the starting best, some state the search reaches at the end has exactly that many steps |
| `LongWalk.ReachedEndIsWalk` | 2023/day23/run.py:180-185 | a state reached at the end spells a walk from the start to the end of that many steps |
| `LongWalk.PathFinder.constructor` | 2023/day23/run.py:171-174 | a new path finder stands at the grid's start (the first open cell of the top row) with an empty stack, and the end is the first open cell of the bottom row |
| `LongWalk.PathFinder.Length` | 2023/day23/run.py:221-222 | `length` is the length of the stack, which is the length of the walk from the start to `pos` |
| `LongWalk.PathFinder.Retreat` | 2023/day23/run.py:209-219 | `retreat` returns None and changes nothing on an empty stack, and otherwise pops, unmarks and steps back, returning the popped direction |
| `LongWalk.PathFinder.FindOpen` | 2023/day23/run.py:190-192 | the `for` loop over `Direction.values(dir_hint)` finds the first open direction from the hint on |
| `LongWalk.PathFinder.Enter` | 2023/day23/run.py:193-196 | the move inside `advance` pushes the open direction |
| `LongWalk.PathFinder.Advance` | 2023/day23/run.py:188-207 | `advance` computes `Advanced`: the first open direction from the hint, or retreat until a popped direction has a successor, and False once the stack is empty |
| `LongWalk.PathFinder.FindLongestPath` | 2023/day23/run.py:176-186 | fails on a grid with no start (the `None.row` AttributeError), and otherwise marks the start and returns the longest stack seen at the end, as `Explore` says |
| `LongWalk.PathFinder.Step` | 2023/day23/run.py:180 | one hint-less `advance` is one step of the exploration |
| `LongWalk.PathFinder.ExploreLoop` | 2023/day23/run.py:180-186 | the `while self.advance()` loop computes `Explore` from the state it starts in |
| `LocationLists.ParseLine` | 2024/day01/run.py:22-24 | a line parses exactly when it has two words, both integers, and the pair is their values |
| `LocationLists.ParseLines` | 2024/day01/run.py:21-24 | the reading loop succeeds exactly when every line parses, and the two columns hold each line's pair at its index; on failure it is the first bad line's error (`LocationLists.FirstBadLineWins`) |
| `LocationLists.FirstBadLineWins` | 2024/day01/run.py:21-24 | when several lines do not parse, the error reported is that of the first of them, where the loop raises |
| `LocationLists.UnpackingErrorFirst` | 2024/day01/run.py:21-24 | on `1` followed by `a b` the error is the unpacking ValueError of the first line, not the `int()` error of the second |
| `LocationLists.LessIsStrictOrder` | 2024/day01/run.py:26-27 | `<` on integers is the strict order `list.sort` uses |
| `LocationLists.SortAscending` | 2024/day01/run.py:26-27 | `list.sort()` yields the same values in ascending order |
| `LocationLists.TotalDistance` | 2024/day01/run.py:29-33 | the sum of `abs(left[i] - right[i])`; `LocationLists.DistanceSymmetric` and `LocationLists.DistanceZero` state its meaning |
| `LocationLists.Part1` | 2024/day01/run.py:29-33 | the loop sums `abs(left[i] - right[i])` over the left list |
| `LocationLists.DistanceSymmetric` | 2024/day01/run.py:29-33 | swapping the two lists does not change the distance |
| `LocationLists.DistanceZero` | 2024/day01/run.py:29-33 | the distance is 0 exactly when the lists agree pair by pair |
| `LocationLists.CountMultiplicity` | 2024/day01/run.py:38 | `right.count(x)` is the multiplicity of `x` in the right list |
| `LocationLists.TotalSimilarity` | 2024/day01/run.py:35-39 | the sum of `left[i] * right.count(left[i])`; `LocationLists.SimilarityPermutation` and `LocationLists.RightOrder` state what it depends on |
| `LocationLists.Part2` | 2024/day01/run.py:35-39 | the loop sums `left[i] * right.count(left[i])` over the left list |
| `LocationLists.SimilarityRemove` | 2024/day01/run.py:35-39 | removing one entry of the left list removes exactly its score from the total |
| `LocationLists.SimilarityPrefix` | 2024/day01/run.py:37-38 | the partial sum of the loop is the similarity of the prefix |
| `LocationLists.SimilarityPermutation` | 2024/day01/run.py:35-39 | the similarity depends only on which values the left list holds, not on their order |
| `LocationLists.IndexOf` | 2024/day01/run.py:35-39 | a value in the multiset of a list sits at some index of it |
| `LocationLists.RemoveMatching` | 2024/day01/run.py:35-39 | taking the last entry off one list and an equal entry off a permutation of it leaves two permutations |
| `LocationLists.RightOrder` | 2024/day01/run.py:38 | only the multiplicities of the right list matter to the similarity |
| `LocationLists.SimilaritySameCounts` | 2024/day01/run.py:38 | right lists that count every left value the same give the same similarity |
| `LocationLists.Run` | 2024/day01/run.py:18-42 | the script fails exactly when a line does not parse, with that line's error; part 1 is the distance of the sorted columns, and part 2 the similarity of the columns as read, which the sorting does not change |
| `Reports.Sign` | 2024/day02/run.py:18-23 | `_sign` is -1, 0 or 1, has the sign of its argument, and is 0 exactly for 0 |
| `Reports.SafeIffMonotone` | 2024/day02/run.py:56-80 | a report is safe exactly when its levels increase throughout, or decrease throughout, by 1 to 3 at each step |
| `Reports.SafeSkipAsWritten` | 2024/day02/run.py:56-80 | `safe_skip` as written raises an IndexError exactly on a report of fewer than two levels, and otherwise answers whether the report is safe (see Findings) |
| `Reports.SafeSkip` | 2024/day02/run.py:56-80 | the corrected `safe_skip` answers exactly whether the report is safe, a report too short counting as safe |
| `Reports.Remove` | 2024/day02/run.py:88-89 | `copy()` then `pop(k)` keeps every level before `k` and shifts every later one down |
| `Reports.SafeDropFirst` | 2024/day02/run.py:84-92 | dropping the first level of a safe report leaves it safe |
| `Reports.TolerableIffRemoval` | 2024/day02/run.py:84-94 | for a non-empty report, safe with the dampener means some single removal is safe |
| `Reports.ShortTolerable` | 2024/day02/run.py:84-94 | a report of at most two levels is always safe with the dampener |
| `Reports.TryFromRemovals` | 2024/day02/run.py:84-94 | the skips from `skip` on raise exactly when the report has two levels and a skip leaves one, and otherwise answer whether some removal from `skip` on is safe |
| `Reports.TryAllAsWritten` | 2024/day02/run.py:83-94 | part 2 `safe` as written raises for a report of fewer than two levels and for an unsafe report of exactly two, and otherwise answers the dampener rule (see Findings) |
| `Reports.TwoLevelsRaise` | 2024/day02/run.py:57-90 | on `1 1` part 2 as written raises, though dropping a level makes the report safe |
| `Reports.SafeWithSkipsAsWritten` | 2024/day02/run.py:83-94 | the skip loop as written computes `TryFrom` from skip -1 |
| `Reports.SafeWithSkips` | 2024/day02/run.py:83-94 | part 2 `safe` with the corrected `safe_skip` answers exactly the dampener rule |
| `Reports.Safe` | 2024/day02/run.py:82-96 | `Report.safe` asks for a safe report in part 1 and allows one removal in part 2 |
| `Reports.SafeCount` | 2024/day02/run.py:100 | the number of safe reports is at most the number of reports |
| `Reports.DampenerCountsMore` | 2024/day02/run.py:82-100 | every report safe without the dampener is safe with it, so part 2 counts at least as many |
| `Reports.NumSafe` | 2024/day02/run.py:100 | the driver counts the reports `safe` accepts |
| `MulScanner.Operand` | 2024/day03/run.py:26 | `(\d{1,3})` followed by its delimiter matches exactly a run of one to three digits that the delimiter follows, and takes two to four characters for an operand below 1000 |
| `MulScanner.MulAt` | 2024/day03/run.py:26 | a `mul(a,b)` match starts with `mul(`, takes at least eight characters, and has both operands below 1000 |
| `MulScanner.TokenAt` | 2024/day03/run.py:26 | the pattern matches `do()` exactly on text starting with `do()` and `don't()` exactly on text starting with `don't()`, and every match takes at least one character |
| `MulScanner.Exclusive` | 2024/day03/run.py:26 | no two of the alternatives start the same text, so their order in the pattern does not matter |
| `MulScanner.Tokens` | 2024/day03/run.py:31 | every `mul` match of `finditer` has operands below 1000 |
| `MulScanner.SwitchTokens` | 2024/day03/run.py:26-31 | `do()` and `don't()` are one match each |
| `MulScanner.MulToken` | 2024/day03/run.py:26-31 | `mul(a,b)` with one-digit operands is one match with those operands |
| `MulScanner.RunAppend` | 2024/day03/run.py:28-40 | the state carries over from line to line: running two stretches of matches is running their concatenation |
| `MulScanner.Scan` | 2024/day03/run.py:28-42 | the nested loops compute the total of running every match of every line from `enabled = True, total = 0` |
| `MulScanner.RunStep` | 2024/day03/run.py:31-40 | one more match applies the loop body once |
| `MulScanner.LineStep` | 2024/day03/run.py:30-31 | one more line's matches follow those of the lines before |
| `MulScanner.Part1CountsAll` | 2024/day03/run.py:33-40 | without `--part2` the enabling never changes, so the total is the sum of `a*b` over every `mul` |
| `MulScanner.EnabledStep` | 2024/day03/run.py:39-40 | after `do()` the scanner is enabled, after `don't()` disabled, and a `mul` leaves it alone |
| `MulScanner.Part2CountsEnabled` | 2024/day03/run.py:28-40 | with `--part2` the total is the sum over the `mul`s whose last preceding switch is not `don't()` |
| `WordSearch.Next` | 2024/day04/run.py:59-76 | `Direction.next` moves to one of the eight neighbouring cells, never staying put |
| `WordSearch.NextOpposite` | 2024/day04/run.py:59-76 | a step back the other way returns to the start |
| `WordSearch.StepsDistinct` | 2024/day04/run.py:59-76 | different directions lead to different neighbours |
| `WordSearch.DirectionsComplete` | 2024/day04/run.py:55-57 | `Direction.values()` lists every direction |
| `WordSearch.WalkOffset` | 2024/day04/run.py:59-76 | `k` steps along a direction go `k` times its unit step |
| `WordSearch.WalkShift` | 2024/day04/run.py:122 | taking the first step before walking on is walking one step further |
| `WordSearch.NewGrid` | 2024/day04/run.py:85-90 | the constructor succeeds exactly on a non-empty rectangular grid, keeping the content, and an empty grid is an IndexError |
| `WordSearch.ParseGrid` | 2024/day04/run.py:148-156 | `parsefrom`: row `i` of the grid is line `i` stripped, every row before the first line that strips to nothing; it fails exactly when there is no such row or the rows differ in length |
| `WordSearch.UntilBlank` | 2024/day04/run.py:151-154 | `parsefrom` reads the lines before the first empty one, all of them when there is none |
| `WordSearch.Get` | 2024/day04/run.py:112-115 | `get` returns a letter exactly for a cell on the grid, and None off it |
| `WordSearch.ContainsAt` | 2024/day04/run.py:117-123 | `contains_at`; `WordSearch.ContainsAtIff` states it letter by letter |
| `WordSearch.ContainsAtIff` | 2024/day04/run.py:117-123 | `contains_at` holds exactly when each letter of `values` is on the grid at its step along the direction |
| `WordSearch.Line` | 2024/day04/run.py:134-140 | `n` steps read `n` values |
| `WordSearch.LineAt` | 2024/day04/run.py:134-140 | entry `k` of what is read is the value `k` steps along |
| `WordSearch.ValuesFrom` | 2024/day04/run.py:134-140 | the `while count > 0` loop reads one value per step, none for a count that is not positive |
| `WordSearch.RowMajorAppend` | 2024/day04/run.py:127-132 | two row-major lists, the second wholly after the first, join into one |
| `WordSearch.FindAll` | 2024/day04/run.py:125-132 | `find_all`; `WordSearch.FindAllContents` states that it lists exactly the matching cells in row-major order |
| `WordSearch.FindOnly` | 2024/day04/run.py:142-146 | `find_only`; `WordSearch.FindOnlyIff` states when it succeeds |
| `WordSearch.RowMatchesContents` | 2024/day04/run.py:127-132 | one row of the comprehension lists exactly the matching cells of the row, left to right |
| `WordSearch.MatchesUpToContents` | 2024/day04/run.py:127-132 | the first `n` rows of the comprehension list exactly their matching cells, in row-major order |
| `WordSearch.FindAllContents` | 2024/day04/run.py:125-132 | `find_all` lists exactly the cells holding the value, each once, in row-major order |
| `WordSearch.FindOnlyIff` | 2024/day04/run.py:142-146 | `find_only` succeeds exactly when one cell holds the value and returns it, and fails when no cell or two cells hold it |
| `WordSearch.DirsFrom` | 2024/day04/run.py:182-185 | at most one count per direction |
| `WordSearch.XmasCountBound` | 2024/day04/run.py:180-185 | at most eight words start at each `X` |
| `WordSearch.XmasSpelled` | 2024/day04/run.py:183 | a direction counted for a cell spells X, M, A, S letter by letter from that cell |
| `WordSearch.Part1` | 2024/day04/run.py:179-185 | the part-1 loops count the (X, direction) pairs along which XMAS reads |
| `WordSearch.WordsAt` | 2024/day04/run.py:182-185 | the inner loop counts the directions along which XMAS reads from one `X` |
| `WordSearch.Three` | 2024/day04/run.py:168-172 | `values_from(..., 3)` reads three values |
| `WordSearch.CrossAtIff` | 2024/day04/run.py:164-177 | an X-MAS is an `A` with an `M` and an `S` at opposite ends of each diagonal |
| `WordSearch.CrossCount` | 2024/day04/run.py:167-177 | at most one cross per `A` |
| `WordSearch.ReadThree` | 2024/day04/run.py:134-140 | `values_from` with count 3 reads `Three` |
| `WordSearch.IsCross` | 2024/day04/run.py:168-176 | one centre counts exactly when both diagonals read MAS or SAM, the second read only when the first does |
| `WordSearch.Part2` | 2024/day04/run.py:164-177 | the part-2 loop counts the `A`s at the centre of an X-MAS |
| `Results.MapAll` | 2023/day2/game.py:53 | mapping a parser over a list gives one result per element |
| `Results.MapAllSuccess` | 2023/day2/game.py:53 | the list is made exactly when every element parses, and holds their results in order |
| `Results.MapAllOf` | 2023/day2/game.py:53 | elements whose results are known give exactly those results |
| `Results.MapAllStep` | 2023/day2/game.py:53 | one more element that parses appends its result |
| `Results.MapAllFail` | 2023/day2/game.py:53 | the first element that raises passes its error on to the whole list |
| `Sorting.Insert` | 2024/day01/run.py:26-27 | insertion adds exactly the new element |
| `Sorting.Sort` | 2024/day01/run.py:26-27 | sorting keeps exactly the same elements |
| `Sorting.InsertSorted` | 2024/day01/run.py:26-27 | inserting into a sorted list keeps it sorted |
| `Sorting.InsertStable` | 2023/day17/grid.py:143 | an inserted element goes after every element it ties with |
| `Sorting.SortStable` | 2023/day17/grid.py:143 | the sort is stable, as Python's is: elements with equal keys keep their order |
| `Sorting.SortSorted` | 2023/day05/sparsemap.py:13 | `sorted` returns a permutation of its input in key order |
| `Text.Split` | 2023/day15/hash.py:15 | `str.split(sep)` always gives at least one piece |
| `Text.JoinSplit` | 2023/day15/hash.py:15 | splitting loses nothing: joining the pieces with the separator gives the string back |
| `Text.SplitPiece` | 2023/day15/hash.py:15 | no piece holds the separator |
| `Text.SplitFirst` | 2023/day15/hashmap.py:18 | a first piece without the separator splits off whole |
| `Text.SplitAlone` | 2023/day15/hashmap.py:31 | a string without the separator is one piece |
| `Text.NatOfBound` | 2024/day03/run.py:26 | a string of `k` digits stands for a number below `10^k` |
| `Text.DigitRun` | 2024/day03/run.py:26 | the run of digits a string starts with is all digits and is followed by a non-digit or the end |
| `Text.Digits` | 2023/day05/sparsemap.py:9 | `str(n)` of a natural number is a non-empty string of digits |
| `Text.NatOfDigits` | 2023/day05/sparsemap.py:9 | reading back the digits written for `n` gives `n` |
| `Text.ParseInt` | 2023/day6/run.py:8 | `int(s)` succeeds exactly on an optional sign followed by digits, and reads digits as their decimal value |
| `Text.ParseIntDigits` | 2023/day05/sparsemap.py:9-23 | `int` reads back what `str` writes for a natural number and its negation |
| `Text.NonEmptyPieces` | 2023/day6/run.py:5 | `split()` keeps exactly the non-empty pieces |
| `Text.Words` | 2023/day6/run.py:5 | `split()` without an argument; `Text.WordsClean`, `Text.WordsOfTwo` and `Text.WordsOfThree` state what it returns |
| `Text.WordsClean` | 2023/day6/run.py:5 | the words of `split()` are non-empty and hold no space |
| `Text.ParseInts` | 2023/day6/run.py:8 | `[int(p) for p in pieces]` succeeds exactly when every piece parses, and holds their values in order |
| `Text.IntText` | 2023/day05/sparsemap.py:9 | `str(x)` of an integer is non-empty and has no space |
| `Text.IntTextRoundTrip` | 2023/day05/sparsemap.py:9-23 | `int(str(x)) == x` |
| `Text.WordsOfThree` | 2023/day05/sparsemap.py:9-19 | three words written with single spaces split back into those three words |
| `Text.WordsOfTwo` | 2023/day7/camelpoker.py:67 | two words written with a single space split back into those two words |
| `Text.AllNonEmpty` | 2023/day6/run.py:5 | a list without empty pieces is kept whole |
| `Text.SplitJoin` | 2023/day20/run.py:97 | pieces without the separator, joined and split again, come back unchanged |
| `Text.JoinFree` | 2023/day20/run.py:97 | a character in none of the pieces, and not the separator, is not in their join |
| `Text.StripStart` | 2023/day20/run.py:96 | `lstrip()`: a suffix of the string with no leading whitespace, everything removed before it being whitespace (the characters `str.isspace` accepts, `Text.IsSpace`) |
| `Text.StripEnd` | 2023/day20/run.py:96 | `rstrip()`: a prefix of the string with no trailing whitespace, everything removed after it being whitespace |
| `Text.Strip` | 2023/day20/run.py:96 | `strip()`: a contiguous part of the string with only whitespace before and after it, and no whitespace at either of its own ends |
| `Text.StripInside` | 2023/day20/run.py:96 | stripping only removes characters: what is not in the string is not in its strip |
| `Text.StripClean` | 2023/day20/run.py:96 | a string with no whitespace at either end is its own strip |
| `Text.StripTrailing` | 2023/day15/hash.py:15 | whitespace at the end of a line, such as its line feed, is stripped with the rest |
| `Text.StripLeading` | 2023/day20/run.py:96 | whitespace at the start of a line is stripped with the rest |

## Left out

- Reading standard input, the `argparse` flags, and the `print`-based debug and verbose traces are left out. A flag that changes the answer (`--part2`, `--cycles`, `--steps`) becomes a parameter.
- The module-level driver code is not modelled where it only parses and prints: line parsing in days 9, 12, 13 and 14, the `parsefrom`/`parseFrom` readers of days 10, 14, 16, 17, 21 and 23, and `Report.parse`/`parse_many` of 2024 day 2. Their cores take already-parsed data.
- `Universe.parseFrom` (2023/day11/universe.py:97) is not modelled: the model starts from the galaxy coordinates.
- Wasteland: the node-line parsing of days 8 and 08 (`parseFrom`, the line pattern) is not modelled. The network is a given map from node names to their left and right neighbours.
- 2023/day16/grid.py:182-219: the part-2 maximum over all edge entry points is not modelled; `Beams.Grid.Energize` covers one entry set.
- Pipes: `farthestPointFromStart` only prints for debugging and is not modelled; `distanceToFarthestPointFromStart` is.
- 2023/day17/grid.py:146-181: the printing of weights and of the path display is left out. The walk back along `prev` is modelled by `Crucible.Trail`.
- Day 18 is not part of this model. Its grid is a `scipy.sparse` matrix, a foreign library.
- Workflows: the `ply` lexer and grammar of 2023/day19/run.py:25-206 are not modelled; workflows and parts are given datatypes.
- PulseNetwork: pulse counting is not modelled, since the source has none. The second `Receiver` built at 2023/day20/run.py:186-187 is not modelled either, because no pulse reaches it.
- `functools.cache` memoisation (days 10, 12 and 14) is left out: the functions are modelled without a cache.
- `__eq__` and `__hash__` built from `repr` strings are modelled as structural equality of the datatypes.
- CubeGame: `Game.parse` keeps a lazy `map` iterator that can be traversed only once (2023/day2/game.py:53). The model parses the samples lazily, as each traversal reaches them, but it does not reproduce the exhaustion: a second traversal of the same game sees every sample again, where the script would see none.
- Text.Words: splits on the space character only, while Python's `split()` with no argument splits on every whitespace character. Callers are affected on input with tabs or other whitespace inside a line: `LocationLists.ParseLine`, `Scratchcards.CardPieces`, `SparseMaps.ParseTriple`, `SparseMaps.ParseFrom`, `BoatRaces.Answer` and `CamelCards.ParseHand`.
- LocationLists.ParseLine: splits lines with `Text.Words`, which splits on the space character only, so a line with tabs or other whitespace inside it is not split as Python's `split()` splits it.
- SparseMaps.ParseFrom: splits lines with `Text.Words`, which splits on the space character only, so a line with tabs or other whitespace inside it is not split as Python's `split()` splits it.
- BoatRaces.Answer: splits lines with `Text.Words`, which splits on the space character only, so a line with tabs or other whitespace inside it is not split as Python's `split()` splits it.
- CamelCards.ParseHand: splits lines with `Text.Words`, which splits on the space character only, so a line with tabs or other whitespace inside it is not split as Python's `split()` splits it.
- Scratchcards.CardPieces: splits lines with `Text.Words`, which splits on the space character only, so a line with tabs or other whitespace inside it is not split as Python's `split()` splits it.
- SparseMaps.ParseTriple: splits lines with `Text.Words`, which splits on the space character only, so a line with tabs or other whitespace inside it is not split as Python's `split()` splits it.
- Schematic.DigitRunsMaximal: `\d+` is modelled with the ASCII digits `0`-`9` only, while Python's `\d` matches every Unicode decimal digit and `int` reads them. The part numbers of a schematic holding other decimal digits are not modelled.
- Schematic.RunMaximal: the same ASCII restriction of `\d` as `Schematic.DigitRunsMaximal`.
- MulScanner.Operand: `(\d{1,3})` is modelled with the ASCII digits `0`-`9` only, while Python's `\d` matches every Unicode decimal digit. A `mul` whose operands use other decimal digits is not recognised.
- CubeGame.FirstNumber: `re.search("\d+", ...)` is modelled with the ASCII digits `0`-`9` only, while Python's `\d` matches every Unicode decimal digit and `int` reads them. A count written in other decimal digits is taken as missing here, where the script would read it.
- CamelCards.TotalWinnings: ranks the hands with the total order `HandLess`. `hands.sort` calls `Hand.__lt__`, which raises IndexError on two hands of the same type where the second is shorter and agrees so far (`CamelCards.LessThan`). The model does not carry that error into the sort, because which comparisons the sort makes depends on its algorithm. Hands of equal length, as in the puzzle input, never raise.
- Text.ParseInt: accepts an optional sign followed by ASCII digits only. Python's `int` also accepts surrounding whitespace, `_` between digits, and non-ASCII decimal digits.
- Trebuchet.DigitsOf: `isdigit` is modelled for the ASCII digits `0`-`9` only, although Python's accepts other Unicode digits. `Trebuchet.ExtractDigits` is limited the same way.
- Trebuchet.ExtractDigits: reads the digits with `Trebuchet.DigitsOf`, so it takes the ASCII digits `0`-`9` only, where Python's `isdigit` accepts other Unicode digits.
- CubeGame.SplitAround: the regular expressions `\s*,\s*`, `\s*;\s*` and `\s*:\s*` are modelled with the space as the only whitespace character. `CubeGame.SplitRuns`, for `\s+`, is limited the same way.
- CubeGame.SplitRuns: `re.split("\s+", ...)` is modelled with the space as the only whitespace character, so a run of tabs or other whitespace does not split a sample.
- Lcm.Gcd: takes natural numbers only, and so does the rest of `Lcm`. On a negative argument the source's `_gcd` can recurse without end, because Python's `%` takes the sign of the divisor.
- Mirrors.Transpose: requires a rectangular pattern, and so do `Mirrors.Process` and `Mirrors.Score`. The IndexError the source raises on a ragged pattern is not modelled.
- Mirrors.Process: requires a rectangular pattern, like `Mirrors.Transpose`. What the source does with rows of different lengths is not modelled.
- Mirrors.Score: requires a rectangular pattern, like `Mirrors.Process`. The IndexError on a ragged pattern is not modelled; the one on an empty pattern is.
- Wasteland.Walk: takes a `fuel` bound on the number of steps, because the source loops forever on a network that never reaches the end. `Wasteland.WalkAll` (the part-2 walk) is bounded the same way.
- Wasteland.WalkAll: takes a `fuel` bound on the number of simultaneous moves, because the part-2 walk loops forever when the walkers never all reach `Z` nodes.
- Workflows.Steps: takes a `fuel` bound on the `accept` loop, which the source does not guarantee to end (`Workflows.SelfRouteNeverEnds`). `Workflows.AcceptPart` and `Workflows.Part1` inherit the bound.
- Workflows.AcceptPart: takes the same `fuel` bound on the `accept` loop as `Workflows.Steps`. A part whose run has not ended within the bound gets no verdict, where the source would go on looping.
- Workflows.Part1: runs `Workflows.AcceptPart` on every part, so it inherits the `fuel` bound on the `accept` loop.
- PulseNetwork.Run: takes a `fuel` bound on the pulses delivered, because a press need not drain (`PulseNetwork.SelfLoopNeverDrains`). `PulseNetwork.Network.ProcessQueuedPulses` and `PulseNetwork.Network.Push` inherit the bound.
- PulseNetwork.Network.ProcessQueuedPulses: takes the same `fuel` bound on the pulses delivered as `PulseNetwork.Run`, and reports whether the queue drained within it, where the source would go on delivering.
- PulseNetwork.Network.Push: drains the queue with `PulseNetwork.Network.ProcessQueuedPulses`, so it inherits the `fuel` bound on the pulses delivered.
- LongWalk.Explore: takes a `fuel` bound on the number of advances. The part-2 search is not guaranteed to end within any bound the code states. `LongWalk.PathFinder.FindLongestPath` inherits the bound.
- LongWalk.PathFinder.FindLongestPath: requires an empty direction stack, which every path finder the script builds has. The source does not clear the stack itself.
- LongWalk.At: reads a forest cell off the grid, where Python would raise or wrap. The search never reads off the grid (`LongWalk.ReachKeeps`), so nothing depends on that value.
- Rocks.Floyd: takes the eventual periodicity of the cycle sequence as a precondition. For grids it is discharged by `Rocks.GridsRepeat`, which `Rocks.CyclesWithSkipping` uses.
- Crucible.Grid.MinLoss: on failure it states only which of the five errors the source can raise. It does not say for which grids a node is relaxed before it has a weight (the TypeError), or for which the destination is never reached.
- LocationLists.Part1: requires the right list to be at least as long as the left one, which the reading loop guarantees. The IndexError otherwise raised at 2024/day01/run.py:32 is not modelled.
- StepCounter.FindAll: takes the value to look for; the form of `find_all` that takes a predicate is not used by the script and is not modelled. `WordSearch.FindAll` is limited the same way.
- WordSearch.FindAll: takes the value to look for; the form of `find_all` that takes a predicate is not used by the script and is not modelled.

## Findings

| source | as written | input that shows it | evidently intended | confidence | as-written member | corrected member |
|---|---|---|---|---|---|---|
| 2023/day14/run.py:234-237 | Part 1 calls `grid.tip_north()` and drops the tipped grid it returns, so the load printed is that of the untipped grid | a column with `.` above `O`: load 1 is printed instead of 2 | print the load of the tipped grid | not executed | `Rocks.Part1AsWritten`, `Rocks.Part1AsWrittenMissesTip` | `Rocks.Part1`, `Rocks.TipNorthRaisesLoad` |
| 2024/day02/run.py:57-90 | `safe_skip` reads `levels[1]` before any check. Part 2 passes it a copy with one level popped, so an unsafe two-level report raises IndexError | the report `1 1` | a report of fewer than two levels is safe, so `1 1` is safe once a level is dropped | not executed | `Reports.SafeSkipAsWritten`, `Reports.TwoLevelsRaise` | `Reports.SafeSkip`, `Reports.SafeWithSkips` |
| 2023/day03/schema.py:117-130 | Each neighbouring line's window is clamped to that line's own length, so on a shorter line it can slide onto columns that do not touch the number | `#` over `..5`: the `#` two columns left of the `5` is reported adjacent | search only the columns next to the number that exist on the neighbouring line | not executed | `Schematic.RaggedClamped`, `Schematic.RaggedLineAsWritten` | `Schematic.Window`, `Schematic.PartNumberIff` |
| 2023/day7/camelpoker.py:18-21 | `Card.__eq__` returns False exactly when the other object is a `Card`: the `isinstance` test is inverted. The printed answer is not affected: cards are the shared objects of `_cardsBySymbol`, and the dictionary lookups in `Hand.__init__` test identity before they call `__eq__` | any card compared with itself, e.g. the ace | cards are equal when their symbol and order are; the model's counts use this equality, which gives the same lookups as identity on the shared cards | not executed | `CamelCards.CardEqualsAsWrittenIrreflexive` | `CamelCards.CardEqualsIsEquality` |
