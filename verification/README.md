# Advent of Code 2021 solutions, modelled in Dafny

This project models the puzzle-solving core of kyclark's Advent of Code 2021
repository. It covers both the Python scripts and their Rust twins, one
Dafny module per concern:

- **Depths** (day 1): counts sonar readings deeper than the one before, and
  window sums that grew. Covers `depths.py`, `depths_window.py` and the two
  Rust programs.
- **Position** (day 2): pilots the submarine from `forward`/`down`/`up`
  commands. Covers `position.py` and the Rust `position`.
- **Diagnostic** (day 3): gamma/epsilon rates from the most and least common
  bits, and the oxygen/CO2 ratings by repeated filtering. Covers `binary.py`,
  `binary2.py`, `binary_strings` and `binary_strings2`.
- **Bingo** (day 4): grouping the boards, marking drawn numbers, the
  winning-line test on a flat 5×5 board, scores and the game loop.
- **Vents** (day 5): counts the points covered by at least two vent lines.
  `vents.py` skips diagonals; the Rust `vents2` walks them with a
  zip-longest.
- **Lanternfish** (day 6): the school of fish as a list (`lanternfish.py`)
  and as a timer histogram (`lanternfish2.py`).
- **Crabs** (day 7): the cheapest alignment position with constant or
  growing fuel cost.
- **Display**, **Segments**, **Decoding** (day 8):
  - counting the patterns of unique length (`display.py`);
  - the bit-mask seven-segment decoder of `display2.py`;
  - the proof that it decodes every scrambled wiring correctly.
- **Grid**, **LowPoints**, **Basins**, **FindPath** (day 9 and the `paths`
  helper): neighbours on a rectangular height map, low points, basins by
  flood fill, and the lock-step breadth-first path finder.
- **Brackets** (day 10): corruption and completion scores of bracket lines
  (`chunky.py`, `chunky2.py`).
- **Util**: shared pieces:
  - Python's `int`, `str.split` and `rstrip`;
  - Rust's `parse::<usize>`;
  - a stable sort by key;
  - minimum and maximum;
  - sums.

The scripts read a file, parse it and print a number. The model takes the
file's lines, or the command-line text, as a parameter. It returns the
printed number, or the exception or panic, as a `Result`. Python integers
are unbounded `int`s. Rust's `usize` is modelled for a 64-bit target, and
arithmetic that overflows it panics, as in a debug build.

## Model

| member | source | states |
|---|---|---|
| Util.ParseInts | python/day06/lanternfish.py:49 | `list(map(int, fields))` succeeds exactly when every field is an integer numeral; the values are then the fields' values, in order |
| Util.JoinSplit | python/day06/lanternfish.py:49 | joining the pieces of `s.split(sep)` with `sep` gives back `s`, so the split loses no character |
| Util.SplitJoin | python/day06/lanternfish.py:49 | splitting `sep.join(parts)` on `sep` gives back `parts` when no part contains `sep` |
| Util.WordsRStrip | python/day02/position.py:46 | `line.rstrip().split()` equals `line.split()` |
| Util.Sort | python/day07/crabs.py:41 | `sorted` returns a non-decreasing permutation of its input |
| Util.RustParseShowNat | rust/day01/depths/src/main.rs:42 | every `usize` written in decimal parses back to itself |
| Depths.CountIncreases | python/day01/depths.py:40-53 | the loop counts the readings deeper than the reading before; the first reading never counts |
| Depths.CountWindowIncreases | python/day01/depths_window.py:48-65 | for a window size w > 0 it counts the positions i >= w whose reading beats the one w places back; for w <= 0 any input fails at the first pop of the empty window, and empty input prints 0 |
| Depths.SlideSum | python/day01/depths_window.py:56-59 | sliding the window changes its sum by the entering reading minus the leaving one, so the sum grows exactly when the entering reading is larger |
| Depths.GainsBound | python/day01/depths.py:43-49 | at most one increase per reading after the first w |
| Depths.NoGainsWhenNonIncreasing | python/day01/depths.py:47-49 | readings that never grow count no increase; equal readings are not increases |
| Depths.AllGainsWhenIncreasing | python/day01/depths.py:47-49 | strictly deeper readings count once per reading after the first w |
| Depths.PythonDepths | python/day01/depths.py:43-53 | a ValueError exactly when some stripped line is not an integer; otherwise the count of increases |
| Depths.PythonWindow | python/day01/depths_window.py:51-65 | for w > 0: a ValueError exactly when some stripped line is not an integer, otherwise the count of window increases. For w <= 0 only the first line is read: a ValueError if it is not an integer, otherwise the IndexError of `pop(0)` on the empty window; no lines print 0 |
| Depths.RustReadingsStep | rust/day01/depths/src/main.rs:40-42 | each line adds its reading when it parses as a `usize` and nothing otherwise |
| Depths.RustDepths | rust/day01/depths/src/main.rs:38-56 | the count of increases among the lines that parse as `usize`; other lines are skipped without resetting the previous reading |
| Depths.RustWindow | rust/day01/depths_window/src/main.rs:80-98 | a window of 0 panics at `remove(0)` on the first reading; otherwise the count of window increases among the readings kept |
| Depths.ReadingsAgree | rust/day01/depths/src/main.rs:40-42 | when every line is a numeral within `usize`, Python and Rust read the same readings |
| Depths.NumeralReadsAlike | rust/day01/depths/src/main.rs:42 | a numeral within `usize` survives `rstrip` and reads the same under Python's `int` and Rust's `parse` |
| Depths.ParseIntArg | rust/day01/depths_window/src/main.rs:50-53 | `parse_int` succeeds exactly when `parse` does; its error names the text |
| Depths.ParseIntArgExamples | rust/day01/depths_window/src/main.rs:56-72 | the three cases of `test_parse_int` |
| Position.PilotIsSums | python/day02/position.py:43-54 | the final position is (total forward, total down minus total up) |
| Position.PilotPermutation | python/day02/position.py:45-54 | reordering the commands does not change the final position |
| Position.PythonCommand | python/day02/position.py:46-47 | a line is a command exactly when it has two words and the second is an integer, and the command holds those two |
| Position.PythonCommands | python/day02/position.py:45-47 | the loop gets past every line exactly when each line is a command; the commands line up with the lines |
| Position.PythonCommandsSnoc | python/day02/position.py:45-47 | once every earlier line has parsed, a further line that parses adds its command at the end, and the earlier commands stay as they were |
| Position.PythonPosition | python/day02/position.py:43-56 | when every line parses, the printed product is total forward times (down minus up); otherwise a ValueError |
| Position.RustCommands | rust/day02/position/src/main.rs:42-47 | at most one command per line, each amount a `usize` |
| Position.RustMove | rust/day02/position/src/main.rs:48-53 | one command on `usize` counters succeeds exactly when the new position stays within `usize` (or the command is ignored), and then it is Python's move |
| Position.RustPilotAgrees | rust/day02/position/src/main.rs:40-56 | the Rust loop finishes exactly when no prefix of the commands leaves `usize`, and then it ends where the Python loop ends |
| Position.RustPosition | rust/day02/position/src/main.rs:40-57 | the product is printed exactly when every prefix and the product fit `usize` |
| Position.CommandsAgree | rust/day02/position/src/main.rs:44-47 | on lines of two words with a `usize` numeral, both versions act on the same commands |
| Lanternfish.Day | python/day06/lanternfish.py:55-62 | one day keeps the fish in order: a timer at 0 becomes 6 and the others count down; one fish at 8 is appended per fish that was at 0 |
| Lanternfish.DayCount | python/day06/lanternfish.py:55-62 | after a day the number of fish at timer k is the count at k + 1, plus the count at 0 when k is 6 or 8 |
| Lanternfish.DaysKeepTimers | python/day06/lanternfish.py:53-62 | timers in 0..8 stay in 0..8 |
| Lanternfish.DaysNeverShrink | python/day06/lanternfish.py:53-62 | the school never shrinks, and after one or more days it has gained one fish per fish that started at 0 |
| Lanternfish.Add | python/day06/lanternfish2.py:53 | `ages[k] += n` adds n under k only, adds n to the total and adds k to the keys |
| Lanternfish.Histogram | python/day06/lanternfish2.py:51-53 | each timer's count is its multiplicity in the parsed list; the total is the number of fish |
| Lanternfish.SpreadCount | python/day06/lanternfish2.py:59-66 | the day loop adds the count at 0 to timers 6 and 8, and the count at k + 1 to timer k |
| Lanternfish.HistDayTotal | python/day06/lanternfish2.py:57-68 | a day adds one fish per fish at 0 to `sum(ages.values())` |
| Lanternfish.HistDayKeys | python/day06/lanternfish2.py:59-66 | a dictionary whose timers are in 0..8 keeps them in 0..8 |
| Lanternfish.HistDayRefines | python/day06/lanternfish2.py:59-66 | a dictionary that holds the list's counts still holds them after one day of each |
| Lanternfish.HistDaysRefines | python/day06/lanternfish2.py:57-66 | after any number of days the dictionary holds the list's counts and its total is the list's length |
| Lanternfish.ListSchool | python/day06/lanternfish.py:49-67 | the ValueError exactly when a field is not an integer; otherwise a count at least the number of fields |
| Lanternfish.SchoolsAgree | python/day06/lanternfish2.py:50-68 | lanternfish.py and lanternfish2.py print the same number (or fail alike) on every state and day count |
| Lanternfish.DictSchool | python/day06/lanternfish2.py:50-68 | a ValueError exactly when a field is not an integer; otherwise the number printed is the length of the list that lanternfish.py grows over the same days |
| Crabs.Cost | python/day07/crabs2.py:53-57 | the cost is at least the distance, and 0 exactly when the two positions are equal |
| Crabs.TriangleFormula | python/day07/crabs2.py:57 | `sum(range(1, d + 1))` is d(d + 1)/2 |
| Crabs.CostClosedForm | python/day07/crabs2.py:53-57 | twice the cost is the distance times (the distance plus one) |
| Crabs.CostSymmetric | python/day07/crabs2.py:56 | the cost does not depend on the direction of the move |
| Crabs.CostExamples | python/day07/crabs2.py:61-72 | the eight cases of `test_cost` |
| Crabs.TriangleMonotone | python/day07/crabs2.py:57 | a longer move never costs less |
| Crabs.FuelZero | python/day07/crabs.py:45 | a candidate costs nothing exactly when every crab is already there |
| Crabs.FuelPermutation | python/day07/crabs.py:45 | the sum over the crabs does not depend on their order |
| Crabs.FuelFartherAway | python/day07/crabs.py:45 | a candidate no nearer to any crab is never cheaper |
| Crabs.SortedBounds | python/day07/crabs.py:41-44 | `pos[0]` is the smallest crab and `pos[-1]` the largest |
| Crabs.CostsMin | python/day07/crabs.py:42-49 | `sorted(costs)[0]` is the price of some candidate, and no candidate is cheaper |
| Crabs.Cheapest | python/day07/crabs.py:41-49 | the answer is the price of a position between the outermost crabs, and no position there is cheaper |
| Crabs.CheapestIsGlobal | python/day07/crabs.py:44 | limiting the candidates to the crabs' span loses nothing: no integer position is cheaper |
| Crabs.Align | python/day07/crabs2.py:41-49 | a ValueError exactly when a field is not an integer; otherwise the price of some integer position, and no integer position costs less |
| Diagnostic.ParseBinary | python/day03/binary.py:50-51 | `int(s, 2)` succeeds exactly on a non-empty string of 0s and 1s |
| Diagnostic.Ones | python/day03/binary.py:45 | the count of ones in a column never exceeds the number of rows |
| Diagnostic.OnesAgree | python/day03/binary.py:45 | on binary rows, counting non-zero digits (Python) and counting `'1'`s (Rust) agree |
| Diagnostic.OnesAndZeros | python/day03/binary.py:44-46 | every row of a column counts either as a one or as a zero |
| Diagnostic.Column | python/day03/binary.py:44 | the column holds the i-th character of each row, in row order |
| Diagnostic.RatesComplement | python/day03/binary.py:47-48 | gamma and epsilon differ in every bit; on a tie epsilon takes 0 and gamma takes 1 |
| Diagnostic.ComplementSum | python/day03/binary.py:50-51 | two binary strings of length w that differ everywhere have values summing to 2^w - 1 |
| Diagnostic.RatesSum | python/day03/binary.py:43-51 | epsilon plus gamma is 2^w - 1 for w columns |
| Diagnostic.PowerOf | python/day03/binary.py:40-53 | the rates exist exactly when there is a first row, it is non-empty, and every row is at least as wide; epsilon has the width of the first row and the two rates sum to 2^w - 1 |
| Diagnostic.RStripAll | python/day03/binary.py:40 | each row is its line with trailing whitespace removed |
| Diagnostic.PythonPower | python/day03/binary.py:40-53 | a result only when there is a line and every character of every stripped line is a decimal digit |
| Diagnostic.CountOnes | rust/day03/binary_strings/src/main.rs:48-53 | the loop counts the rows whose i-th character is `'1'` |
| Diagnostic.RustPower | rust/day03/binary_strings/src/main.rs:40-71 | the Rust program computes the same rates, and fails in the same cases, as the functional definition |
| Diagnostic.BinaryValueBound | rust/day03/binary_strings/src/main.rs:60-62 | a base-2 numeral of n digits is below 2^n |
| Diagnostic.IsizeBinary | rust/day03/binary_strings/src/main.rs:60-62 | `isize::from_str_radix(s, 2).unwrap()` returns exactly when s is a non-empty base-2 numeral whose value fits `isize`, and then returns that value |
| Diagnostic.IsizeTimes | rust/day03/binary_strings/src/main.rs:70 | the `isize` product succeeds exactly when it is at most 2^63 - 1, and then it is the product |
| Diagnostic.RustPowerOutput | rust/day03/binary_strings/src/main.rs:40-71 | a printed product is epsilon times gamma and fits `isize`; a failure to form the rates is passed on unchanged |
| Diagnostic.NarrowPowerFits | rust/day03/binary_strings/src/main.rs:59-70 | with at most 32 columns the program always prints epsilon times gamma, since two numbers summing to 2^w - 1 have a product below 2^63 |
| Diagnostic.EpsilonAgree | python/day03/binary.py:45-48 | on binary rows the Python and Rust counting give the same epsilon and gamma strings |
| Diagnostic.PowerScriptsAgree | rust/day03/binary_strings/src/main.rs:40-62 | on binary lines without trailing spaces, binary.py and binary_strings compute the same rates |
| Diagnostic.Criterion | python/day03/binary2.py:62-63 | the oxygen rule keeps `'1'` exactly when ones >= zeros; the CO2 rule keeps `'0'` exactly then |
| Diagnostic.Keep | python/day03/binary2.py:64 | every kept row is an input row carrying the wanted bit in column i, and none is added |
| Diagnostic.WithPrefix | python/day03/binary2.py:58-64 | the rows kept after several rounds are input rows that start with the chosen bits |
| Diagnostic.KeepExtendsPrefix | python/day03/binary2.py:58-64 | one round of filtering on bit c turns the rows starting with p into the rows starting with p + c |
| Diagnostic.WithEmptyPrefix | python/day03/binary2.py:58 | before the first round every row is kept |
| Diagnostic.CalcFromReturnsInputRow | python/day03/binary2.py:58-67 | a rating returned from any round is one of the input rows |
| Diagnostic.CalcReturnsInputRow | python/day03/binary2.py:54-67 | the rating `calc` returns, when it returns one, is one of the input rows |
| Diagnostic.MostWantedKeepsOne | python/day03/binary2.py:60-64 | on binary rows the most-common filter never empties a non-empty list |
| Diagnostic.KeepCountsMatches | python/day03/binary2.py:60-64 | filtering on `'1'` keeps as many rows as there are ones; filtering on `'0'` keeps the rest |
| Diagnostic.LeastWantedCanEmpty | python/day03/binary2.py:62-67 | on the rows 10 and 11 the least-common filter empties the list, and `calc` returns None |
| Diagnostic.KeepRows | rust/day03/binary_strings2/src/main.rs:83-84 | the Rust filter keeps the same rows, in order, as the Python comprehension |
| Diagnostic.RustCalc | rust/day03/binary_strings2/src/main.rs:65-93 | the Rust `calc` returns what the Python `calc` returns, including None and the index panic |
| Diagnostic.PythonRating | python/day03/binary2.py:42-47 | a rating reads as a number only when `calc` returned a binary numeral; None is a TypeError |
| Diagnostic.RustLifeSupport | rust/day03/binary_strings2/src/main.rs:46-57 | a product is printed only when both ratings exist; it is the oxygen rating times the CO2 rating read in base 2. With both ratings present, it is printed exactly when each rating and their product fit `isize` (2^63 - 1); otherwise `unwrap` or the multiplication panics. Nothing is printed exactly when `calc` succeeds twice and one rating is None |
| Diagnostic.NarrowRatingsFit | rust/day03/binary_strings2/src/main.rs:46-56 | on rows of at most 31 characters, two binary ratings are always read and their product printed |
| Diagnostic.LifeSupportAgree | python/day03/binary2.py:40-50 | whenever the Rust program prints a product, binary2.py prints the same one on the same lines |
| Bingo.RowLine | python/day04/bingo.py:78-79 | a table entry for a row holds the five cells of that row |
| Bingo.ColumnLine | python/day04/bingo.py:80-81 | a table entry for a column holds the five cells of that column |
| Bingo.FindFromFullBoard | python/day04/bingo.py:83-86 | on a board of 25 or more cells the loop never indexes out of range |
| Bingo.LinesAreRowsAndColumns | python/day04/bingo.py:78-86 | some table entry is fully marked exactly when some row or column is |
| Bingo.CompleteLineIsBingo | python/day04/bingo.py:78-86 | a fully marked row or column makes the board win |
| Bingo.BingoIsCompleteLine | python/day04/bingo.py:78-86 | a winning board has a fully marked row or column |
| Bingo.FindWinner | python/day04/bingo.py:75-86 | on at least 25 cells `find_winner` does not raise, and it is true exactly when some row or column is fully marked |
| Bingo.NoMarkNoWinner | python/day04/bingo.py:93-98 | a board without any mark does not win |
| Bingo.UnmarkedBoardDoesNotWin | python/day04/bingo.py:93-98 | the first case of `test_find_winner`: the example board does not win |
| Bingo.FullRowWins | python/day04/bingo.py:100-104 | a board whose first row is marked wins |
| Bingo.FullColumnWins | python/day04/bingo.py:106-111 | the example board with its first column marked wins |
| Bingo.FirstColumnWins | python/day04/bingo.py:106-111 | any board whose first column is marked wins |
| Bingo.DiagonalDoesNotWin | python/day04/bingo.py:78-86 | a marked diagonal alone does not win |
| Bingo.MarkNumber | python/day04/bingo.py:61-63 | every cell holding the drawn number becomes a mark; other cells keep their value |
| Bingo.MarkAbsent | python/day04/bingo.py:61 | a number not on the board leaves it unchanged |
| Bingo.MarkRemovesNumber | python/day04/bingo.py:61-63 | after marking, the number is no longer on the board |
| Bingo.FindFromMonotone | python/day04/bingo.py:83-86 | a board with more marks wins whenever the board with fewer marks wins |
| Bingo.WinnerStaysWinner | python/day04/bingo.py:61-65 | marking more numbers never makes a winning board lose |
| Bingo.Total | python/day04/bingo.py:66 | the sum exists exactly when `int` reads every unmarked cell; a fully marked board sums to 0 |
| Bingo.TotalAfterMark | python/day04/bingo.py:63-66 | marking a number lowers the sum by that number once per cell holding it |
| Bingo.Group | python/day04/bingo.py:45-56 | a board is appended only when it holds words, so no board is empty |
| Bingo.GroupKeepsTokens | python/day04/bingo.py:47-56 | concatenating the boards gives back the words of all lines |
| Bingo.Boards | python/day04/bingo.py:45-56 | every board is non-empty and the boards hold all the words of the lines |
| Bingo.NoBlankLineOneBoard | python/day04/bingo.py:47-56 | lines without a blank one form a single board holding all their words |
| Bingo.BlankLineClosesBoard | python/day04/bingo.py:47-56 | a blank line after lines that are not blank closes one board: the buffered words and those of the lines, if there are any; the boards after it are grouped from an empty buffer |
| Bingo.Visit | python/day04/bingo.py:60-68 | one board is marked and no other board changes. Something is announced exactly when the number was on the board and the board now wins. The announcement is then `Winner i = total * num`: the sum of the unmarked cells after marking, and `int(num)`. It fails exactly when `find_winner` indexes out of range, or when a winning board's sum or `int(num)` raises |
| Bingo.VisitConsistent | python/day04/bingo.py:61-68 | visiting a board keeps every board in `won` winning and every announcement naming a board in `won` |
| Bingo.Draw | python/day04/bingo.py:58-71 | a draw keeps the number of boards and only adds winners and announcements |
| Bingo.DrawConsistent | python/day04/bingo.py:58-71 | a draw keeps the game state consistent |
| Bingo.Play | python/day04/bingo.py:58-71 | the draws only add winners and announcements, and a stopped game stays stopped |
| Bingo.PlayConsistent | python/day04/bingo.py:58-71 | playing any draws keeps the game state consistent |
| Bingo.PlayNoBoards | python/day04/bingo.py:58-71 | with no boards every draw leaves the game as it is, so nothing is printed and the loop runs out |
| Bingo.Bingo | python/day04/bingo.py:43-71 | only winning boards are ever announced; a file with at most the numbers line has no boards and prints nothing |
| Bingo.WinnerAnnouncedAgain | python/day04/bingo.py:65-71 | a board that has won and holds a later drawn number is recorded again |
| Util.WordsEmptyIffBlank | python/day04/bingo.py:47-53 | a line splits into no words exactly when it is all whitespace |
| Vents.Range | python/day05/vents.py:55-56 | Python's `range` with step ±1 has the expected length and k-th element start + k·step |
| Vents.PythonSpan | python/day05/vents.py:55-56 | the span walks from the first end to the second, one step at a time, covering \|b - a\| + 1 values |
| Vents.Inclusive | rust/day05/vents2/src/main.rs:68-77 | `(a..=b)` holds a, a + 1, …, b, and nothing when a > b |
| Vents.RustSpan | rust/day05/vents2/src/main.rs:68-77 | the span walks from the first end to the second, one step at a time, covering \|b - a\| + 1 values |
| Vents.SpansAgree | rust/day05/vents2/src/main.rs:68-77 | the Python and Rust spans are the same sequence |
| Vents.SpanCount | python/day05/vents.py:55-56 | a span holds every value between its ends exactly once and nothing else |
| Vents.PythonCellsCount | python/day05/vents.py:52-62 | a horizontal or vertical segment increments each cell it covers exactly once and no other cell; a diagonal one increments nothing |
| Vents.PythonCellsLength | python/day05/vents.py:55-62 | a kept segment increments \|dx\| + \|dy\| + 1 cells |
| Vents.ZipLongest | rust/day05/vents2/src/main.rs:81-89 | `zip_longest` yields as many points as the longer span |
| Vents.RustPoints | rust/day05/vents2/src/main.rs:68-89 | a segment gives one point more than its longer side |
| Vents.RustDiagonal | rust/day05/vents2/src/main.rs:68-89 | on a 45° segment the k-th point is k steps along both axes, from one end to the other |
| Vents.RustAgreesOnAxisAligned | rust/day05/vents2/src/main.rs:81-89 | on a horizontal or vertical segment the padding repeats the fixed coordinate, and vents2 increments exactly the cells vents.py does |
| Vents.PaintCount | python/day05/vents.py:59-62 | painting adds to each cell the number of points on it and creates only painted keys |
| Vents.PaintPermutation | rust/day05/vents2/src/main.rs:92-96 | the counts depend on which points are painted how often, not on their order |
| Vents.PythonGridCount | python/day05/vents.py:46-62 | each cell's count is the number of kept segments covering it, and exactly the covered cells are keys |
| Vents.PythonGridSwap | python/day05/vents.py:55-56 | writing a segment from its other end gives the same grid |
| Vents.GridsAgreeOnAxisAligned | rust/day05/vents2/src/main.rs:48-97 | when no segment is diagonal, vents2 and vents.py build the same grid |
| Vents.PythonSegments | python/day05/vents.py:46-50 | the loop stops with ValueError exactly when some stripped line does not split on single spaces into three parts whose first and last are integer pairs `x,y` (the middle part is never looked at); otherwise each line gives its segment, in order |
| Vents.PythonVents | python/day05/vents.py:46-66 | vents.py prints a number exactly when every line parses |
| Vents.PythonOverlaps | python/day05/vents.py:66 | the printed number counts the cells covered by two or more kept segments |
| Vents.RustSegment | rust/day05/vents2/src/main.rs:46-66 | a line that yields a segment yields one with non-negative coordinates; that a well-formed line yields its segment is stated by Vents.SegmentLineAgrees |
| Vents.RustSegments | rust/day05/vents2/src/main.rs:48-49 | lines not matching the pattern are skipped; every segment read comes from some line |
| Vents.RustSegmentsAllMatch | rust/day05/vents2/src/main.rs:48-49 | when every line matches the pattern, each line gives its segment, in order |
| Vents.RustSegmentsAppend | rust/day05/vents2/src/main.rs:48-49 | the segments of two blocks of lines are those of the first block followed by those of the second |
| Vents.VentsAgree | rust/day05/vents2/src/main.rs:41-111 | on the same axis-aligned segments, vents.py and vents2 print the same number |
| Vents.PythonSegmentsSnoc | python/day05/vents.py:46-50 | a line that parses, after lines that parse, adds its segment at the end |
| Vents.PairParses | python/day05/vents.py:49-50 | `map(int, p.split(','))` on `a,b` with decimal numerals a and b gives their values |
| Vents.PairMatches | rust/day05/vents2/src/main.rs:46-66 | `(\d+),(\d+)` on `a,b` with decimal numerals a and b captures their values |
| Vents.ThreeWords | python/day05/vents.py:48 | three words without whitespace, the middle one `->`, joined by single spaces, split back into the same three, by `split(' ')` and by `\s+` alike |
| Vents.PartsRead | python/day05/vents.py:48-50 | three parts whose first and last are pairs unpack into the segment between those pairs, whatever the middle part is |
| Vents.WordsRead | rust/day05/vents2/src/main.rs:46-66 | the words `p -> q`, with pairs p and q, give the segment between those pairs |
| Vents.SegmentLineAgrees | python/day05/vents.py:46-50 | on a line `a,b -> c,d` of four decimal numerals, vents.py and vents2 both read the segment (a, b) to (c, d) |
| Vents.SegmentsAgree | rust/day05/vents2/src/main.rs:46-66 | when every line is `a,b -> c,d` with decimal numerals, vents.py reads without error exactly the segments vents2 reads |
| Vents.TextVentsAgree | python/day05/vents.py:46-66 | when every line is such a line and none is diagonal, vents.py and vents2 print the same number |
| Display.CountSetBits | python/day08/display2.py:176-184 | the loop returns the number of set bits of its argument, at most seven |
| Display.PopCountOneIffOneHot | python/day08/display2.py:97 | a mask has one set bit exactly when it is a single segment, and none exactly when it is zero |
| Display.Bit | python/day08/display2.py:84-87 | the bit for a position is a single segment |
| Display.BitDistinct | python/day08/display2.py:84-87 | two positions' bits overlap exactly when the positions are equal |
| Display.PosMap | python/day08/display2.py:80 | `pos` has exactly the letters of the longest pattern as keys, each mapped to an index where it occurs |
| Display.PatMask | python/day08/display2.py:84-87 | a pattern gets a mask exactly when every letter is in `pos`; otherwise `pos[char]` raises KeyError |
| Display.Entries | python/day08/display2.py:83-88 | one entry per pattern, in order, each with its pattern's mask; a KeyError exactly when some pattern has a letter outside `pos` |
| Display.LenGroup | python/day08/display2.py:82-88 | `bits_by_len[k]` holds exactly the entries whose pattern has k letters |
| Display.LastSingle | python/day08/display2.py:94-98 | `pos_f` is set to a one-bit intersection of `one` with a six-letter mask, and stays unset exactly when no such intersection exists |
| Display.AndAllBits | python/day08/display2.py:101-102 | a bit survives the `reduce` of `&` exactly when every five-letter mask has it |
| Display.SortByLen | python/day08/display2.py:77 | `sorted(patterns, key=len)` is a permutation ordered by length |
| Display.SortChars | python/day08/display2.py:112 | `''.join(sorted(pat))` is a permutation of the letters in order |
| Display.SortedUnique | python/day08/display2.py:112 | two sorted strings with the same letters are equal |
| Display.SortCharsKey | python/day08/display2.py:54 | patterns with the same letters, in any order, get the same key |
| Display.Store | python/day08/display2.py:110-132 | every key of `res` comes from an entry that the chain classified |
| Display.Decode | python/day08/display2.py:63-134 | `decode` returns only when there is a pattern, some pattern has seven letters and none has more (the `assert` on the longest) |
| Display.SplitLine | python/day08/display2.py:52 | a line unpacks into patterns and output exactly when it has one `\|` |
| Display.UniqueCount | python/day08/display.py:50-52 | the count is the number of output words whose length is 2, 3, 4 or 7 |
| Display.LineUnique | python/day08/display.py:48-52 | a line counts when it splits at exactly one `\|`, and then its count is the number of its output words of length 2, 3, 4 or 7 |
| Display.CountUnique | python/day08/display.py:45-53 | display.py prints a number exactly when every line has one `\|`; the number is the sum over the lines of their output words of length 2, 3, 4 or 7; otherwise the error is that of the first line that does not split |
| Display.LookUp | python/day08/display2.py:55 | the join succeeds exactly when every output word's key is decoded, and then gives one digit per word, in order |
| Display.SumValues | python/day08/display2.py:51-59 | when every line value exists, the sum is the sum of the values in order, each at most the sum; otherwise the error is that of the first line without a value |
| Segments.Lit | python/day08/display2.py:65-74 | the lit segments of each digit are segment numbers 0 to 6 |
| Segments.LitLength | python/day08/display2.py:65-74 | the digits light 6, 2, 5, 5, 4, 5, 6, 3, 7 and 6 segments |
| Segments.UniqueLengthOneDigit | python/day08/display.py:51 | the lengths 2, 3, 4 and 7 are exactly the lengths that a single digit has |
| Segments.Wires | python/day08/display2.py:65-74 | the wires of a digit are the wire letters of its lit segments, in segment order |
| Segments.ShownLetters | python/day08/display2.py:65-74 | a pattern that shows a digit has its letters exactly the wires of that digit's segments |
| Segments.UniqueWordShowsDigit | python/day08/display.py:50-52 | in a line of patterns, a pattern of length 2, 3, 4 or 7 shows 1, 7, 4 or 8 respectively |
| Segments.UniqueLengthIffEasy | python/day08/display.py:50-52 | a word showing digit d has length 2, 3, 4 or 7 exactly when d is 1, 4, 7 or 8 |
| Segments.UniqueCountCountsEasy | python/day08/display.py:48-52 | on output words that each show a digit under one wiring, the count display.py adds for the line is the number of words showing 1, 4, 7 or 8 |
| Segments.Placed | python/day08/display2.py:84-87 | each segment's wire mask is the single bit at its position |
| Segments.ClassifyNone | python/day08/display2.py:113-132 | a mask that passes no test is left out of `res` |
| Segments.ClassifiesZero | python/day08/display2.py:131-132 | with the true segment masks the mask of 0 reads 0 |
| Segments.ClassifiesOne | python/day08/display2.py:113-114 | with the true segment masks the mask of 1 reads 1 |
| Segments.ClassifiesTwo | python/day08/display2.py:115-116 | with the true segment masks the mask of 2 reads 2 |
| Segments.ClassifiesThree | python/day08/display2.py:117-118 | with the true segment masks the mask of 3 reads 3 |
| Segments.ClassifiesFour | python/day08/display2.py:119-120 | with the true segment masks the mask of 4 reads 4 |
| Segments.ClassifiesFive | python/day08/display2.py:121-122 | with the true segment masks the mask of 5 reads 5 |
| Segments.ClassifiesSix | python/day08/display2.py:123-124 | with the true segment masks the mask of 6 reads 6 |
| Segments.ClassifiesSeven | python/day08/display2.py:125-126 | with the true segment masks the mask of 7 reads 7 |
| Segments.ClassifiesEight | python/day08/display2.py:127-128 | with the true segment masks the mask of 8 reads 8 |
| Segments.ClassifiesNine | python/day08/display2.py:129-130 | with the true segment masks the mask of 9 reads 9 |
| Decoding.MaskOfShown | python/day08/display2.py:84-87 | the mask of a pattern that shows a digit is that digit's segments, each at its wire's position |
| Decoding.PlacedIndependent | python/day08/display2.py:78-80 | seven distinct positions give seven non-overlapping one-bit masks |
| Decoding.ClassifiesDigit | python/day08/display2.py:110-132 | with the true segment masks, every digit's mask reads as that digit |
| Decoding.LengthDigits | python/day08/display2.py:65-74 | 2, 3, 4 and 7 letters name one digit each; 5 letters are 2, 3 or 5; 6 letters are 0, 6 or 9 |
| Display.LongestFirst | python/day08/display2.py:77-78 | after sorting by length and reversing, the first pattern is a longest one and none is lost |
| Decoding.LongestShowsEight | python/day08/display2.py:78-79 | on a valid line the longest pattern has seven letters, one per wire, so the `assert` holds |
| Decoding.Placement | python/day08/display2.py:80 | `pos` from the pattern of 8 gives the seven segments seven distinct positions |
| Decoding.MasksOfLine | python/day08/display2.py:83-88 | on a valid line each pattern's mask is the mask of the digit it shows |
| Decoding.PatMaskLetters | python/day08/display2.py:84-87 | a pattern's mask depends only on which letters it has |
| Decoding.SameKeySameMask | python/day08/display2.py:111-132 | entries with the same key have the same mask, so overwriting a key of `res` never changes its digit |
| Decoding.UniqueGroup | python/day08/display2.py:90-91 | the first entry with 2, 3, 4 or 7 letters has the mask of 1, 7, 4 or 8 |
| Decoding.SixGroup | python/day08/display2.py:95 | six-letter entries are 0, 6 or 9, and 6 is among them |
| Decoding.FiveGroup | python/day08/display2.py:101 | five-letter entries are 2, 3 or 5, and all three are among them |
| Decoding.FindsF | python/day08/display2.py:94-98 | among 0, 6 and 9, only 6 meets `one` in a single bit, which is segment f |
| Decoding.HorizontalSegments | python/day08/display2.py:101-102 | the conjunction of 2, 3 and 5 is the three horizontal segments |
| Decoding.DecodeSteps | python/day08/display2.py:90-134 | with the groups in place, every assignment yields its segment and `res` is the classification of every entry |
| Decoding.StepA | python/day08/display2.py:92 | `one ^ seven` is segment a |
| Decoding.StepC | python/day08/display2.py:100 | `one ^ pos_f` is segment c |
| Decoding.StepD | python/day08/display2.py:103 | `horz & four` is segment d |
| Decoding.StepB | python/day08/display2.py:105 | `four ^ pos_c ^ pos_d ^ pos_f` is segment b |
| Decoding.StepE | python/day08/display2.py:107 | `eight ^ horz ^ pos_b ^ pos_c ^ pos_f` is segment e |
| Decoding.StepG | python/day08/display2.py:108 | the last assignment yields segment g |
| Decoding.MapOfLine | python/day08/display2.py:110-134 | on a valid line the map the loop fills maps each pattern's key to the digit shown, and has no other key |
| Decoding.DecodeCorrect | python/day08/display2.py:63-134 | for ten patterns showing the ten digits under any wiring, in any order and with letters in any order, `decode` succeeds, maps each pattern's sorted letters to the digit it shows, and has no other keys |
| Decoding.DecimalOfDigits | python/day08/display2.py:55-57 | joining digit characters and reading them with `int` gives the number they spell |
| Decoding.SameDigitSameKey | python/day08/display2.py:54 | two words showing the same digit under one wiring have the same key |
| Decoding.OutputKeys | python/day08/display2.py:54-55 | each output word's key is in the decoded map, under the digit the word shows |
| Decoding.LookUpDigits | python/day08/display2.py:55-57 | looking up output words that show the digits od reads the number od spells |
| Decoding.LineValueCorrect | python/day08/display2.py:51-57 | a line whose patterns are a valid line and whose output words show digits under the same wiring reads the number those digits spell |
| Grid.Neighbors | python/day09/heightmap.py:62-85 | every neighbour is one step away; for a cell of the grid they are exactly the grid cells one step away |
| Grid.UnitStep | python/day09/heightmap.py:68-83 | a point one step away is above, below, left or right |
| Grid.SidesAreNeighbors | python/day09/heightmap.py:68-85 | the four bound checks keep exactly the in-grid cells one step away |
| Grid.NeighborsSymmetric | python/day09/heightmap.py:62-85 | if q neighbours p then p neighbours q |
| Grid.NeighborListDistinct | python/day09/basins.py:94-117 | the list-valued `get_neighbors` never repeats a point |
| Grid.NeighborListElements | python/day09/basins.py:94-117 | the list and the set versions hold the same points |
| Grid.NeighborListIsNeighbors | python/day09/basins.py:94-117 | the list is the set, each point once, so both scripts see the same neighbours |
| Grid.NeighborCount | python/day09/heightmap.py:62-85 | on a grid of at least 2x2, corners have 2 neighbours, other border cells 3 and inner cells 4 |
| Grid.SingleCellHasNoNeighbors | python/day09/heightmap.py:62-85 | the only cell of a 1x1 grid has no neighbours |
| Grid.NeighborsExamples | python/day09/heightmap.py:89-106 | the five cases of `test_get_neighbors`, two of them at points just outside the shape |
| Grid.Diagonals | python/day09/basins.py:142-169 | every result is one diagonal step away, in row-major order; for a grid cell they are exactly the in-grid diagonal cells |
| Grid.DiagonalsExamples | python/day09/basins.py:173-189 | the five cases of `test_get_diagonals` |
| Grid.AllDiagonals | python/day09/basins.py:196-197 | the chained list holds exactly the diagonals of the given points |
| Grid.BoundingBox | python/day09/basins.py:202-205 | the box holds every point, and each of its four sides is reached by some point |
| Grid.PerimeterList | python/day09/basins.py:196-200 | the list holds the diagonals, plus the first point when there is exactly one distinct diagonal |
| Grid.Perimeter | python/day09/basins.py:193-205 | None (a ValueError from `min`) exactly when there are no points; otherwise the smallest box holding all of them |
| Grid.Cells | python/day09/basins.py:62 | `np.ndenumerate` visits exactly the in-bounds cells |
| Grid.CellsCard | python/day09/basins.py:62 | a rows x cols grid has rows·cols cells |
| Grid.DistinctCellsBound | python/day09/basins.py:69-86 | a list of distinct grid cells is no longer than the grid |
| LowPoints.LowsInRow | python/day09/heightmap.py:53-56 | the scan of one row finds exactly its low cells, left to right |
| LowPoints.LowsFrom | python/day09/heightmap.py:53-56 | the scan from row r on finds exactly the low cells of those rows, in row-major order |
| LowPoints.LowList | python/day09/basins.py:61-65 | `lows` holds exactly the cells below all their neighbours, in row-major order |
| LowPoints.LexIncreasingDistinct | python/day09/basins.py:61-65 | the scan never records a cell twice |
| LowPoints.NoAdjacentLows | python/day09/heightmap.py:55 | two adjacent cells are never both low |
| LowPoints.EqualNeighborNotLow | python/day09/heightmap.py:55 | a cell equal to a neighbour is not low, since the test is strict |
| LowPoints.SingleCellIsLow | python/day09/heightmap.py:53-56 | the only cell of a 1x1 grid is low, since `all([])` is true |
| LowPoints.ValuesAt | python/day09/heightmap.py:56 | `lows` collects the value at each low point, in order |
| LowPoints.PlusOne | python/day09/heightmap.py:58 | each value is raised by one |
| LowPoints.SumBounds | python/day09/heightmap.py:58 | a sum of values between lo and hi lies between lo·n and hi·n |
| LowPoints.RiskLevelBounds | python/day09/heightmap.py:52-58 | on digit heights the printed risk is between the number of low points and ten times it |
| Basins.GrowthRound | python/day09/basins.py:75-79 | one round adds only new in-grid cells below 9 that neighbour the basin |
| Basins.NoGrowthIsClosed | python/day09/basins.py:81-86 | when a round adds nothing, every neighbour of the basin is in it or is a 9 |
| Basins.GrowBasin | python/day09/basins.py:72-86 | the loop ends with the smallest set holding the low point that is closed under adding in-grid neighbours other than 9, and no 9 but possibly the low point is in it |
| Basins.BasinUnique | python/day09/basins.py:72-86 | the basin of a seed does not depend on the order cells are added |
| Basins.RegrowWithinBasin | python/day09/basins.py:72-86 | growing from any member of a basin stays inside it |
| Basins.LargestThree | python/day09/basins.py:88-90 | `basins[:3]` keeps three sizes, or all when there are fewer |
| Basins.ReverseSortedDesc | python/day09/basins.py:88 | reversing an ascending list gives a non-increasing one |
| Basins.PrefixDominates | python/day09/basins.py:88-90 | in a non-increasing list each kept size is at least each size left out |
| Basins.LargestThreeAreLargest | python/day09/basins.py:88-90 | the sizes kept come from the input, largest first, and every size left out is at most each kept size |
| Basins.TopThreeProduct | python/day09/basins.py:89-90 | `reduce(mul, …, 1)` gives 1 for no basin and the size itself for one basin |
| Basins.BasinProduct | python/day09/basins.py:61-90 | one basin per low point, in scan order, each the true basin of its low point, and the product of the three largest sizes |
| Basins.Sizes | python/day09/basins.py:85 | each recorded size is its basin's size |
| Basins.BasinSizeBound | python/day09/basins.py:72-86 | a basin holds its low point and no more cells than the grid |
| FindPath.ParsePoint | python/paths/find_path.py:60-64 | a point is returned exactly when the text is two runs of digits around a comma, optionally followed by one newline, and it is then the point those runs spell |
| FindPath.ParsePointRoundTrip | python/paths/find_path.py:60-64 | `row,col` written in decimal parses back to the point |
| FindPath.ParsePointNeedsColumn | python/paths/find_path.py:63 | text with nothing after the comma is rejected |
| FindPath.Forward | python/paths/find_path.py:83-93 | `forward` holds exactly the neighbours of the last cell that are not on the path and hold 0 |
| FindPath.ExtendWalk | python/paths/find_path.py:97-98 | extending a walk by a forward cell gives a walk |
| FindPath.PrefixWalk | python/paths/find_path.py:79-106 | every prefix of a walk is a walk, and the next cell was forward from it |
| FindPath.ReachesSplit | python/paths/find_path.py:97-106 | a walk that reaches the end is a pending walk plus a final step onto the end |
| FindPath.NoWalkBackToStart | python/paths/find_path.py:85-99 | no walk returns to its start, so a search from a cell to itself finds nothing |
| FindPath.Arrivals | python/paths/find_path.py:97-104 | the arrivals are exactly the frontier paths extended onto `end` where `end` is forward |
| FindPath.Advance | python/paths/find_path.py:81-106 | `new_paths` holds only frontier paths extended by one forward cell |
| FindPath.StartFrontier | python/paths/find_path.py:79 | `[[start]]` is the frontier of length 1 |
| FindPath.ArrivalIsShortest | python/paths/find_path.py:97-104 | a path found in the round after length k reaches the end and no reaching walk is shorter |
| FindPath.ReachesThroughFrontier | python/paths/find_path.py:80-109 | every walk reaching the end passes through a frontier path |
| FindPath.RoundLonger | python/paths/find_path.py:96-109 | after a round without arrivals, every reaching walk is longer than the new paths |
| FindPath.AdvancePending | python/paths/find_path.py:97-106 | without arrivals, every new path is a pending walk one cell longer |
| FindPath.AdvanceComplete | python/paths/find_path.py:81-106 | every pending walk one cell longer than the frontier is among the new paths |
| FindPath.RoundStep | python/paths/find_path.py:80-109 | a round without arrivals turns the frontier of length k into the frontier of length k + 1 |
| FindPath.FrontierBound | python/paths/find_path.py:80-112 | a non-empty frontier's length is at most the number of cells, so the loop ends |
| FindPath.Search | python/paths/find_path.py:79-112 | the reported path is a shortest walk from start to end through cells holding 0; "No solution" exactly when no walk exists, and always when start equals end |
| Brackets.Partner | python/day10/chunky.py:58 | each closer has an opener as partner |
| Brackets.CloserOf | python/day10/chunky2.py:43 | the closer written for an opener is a closer whose partner is that opener |
| Brackets.CloserOfPartner | python/day10/chunky2.py:43 | the two bracket tables are inverse to each other |
| Brackets.RunAppend | python/day10/chunky.py:60-69 | scanning `a + b` is scanning `a` and then `b` from where it stopped |
| Brackets.RunStopped | python/day10/chunky.py:66-69 | once the scan returns a character, the rest of the line is not read |
| Brackets.Corruption | python/day10/chunky.py:55-71 | `is_corrupt` returns at most one character, and a non-empty one exactly when the scan stopped |
| Brackets.RunShape | python/day10/chunky.py:59-69 | the stack holds only openers, and the scan stops only on a character of the line that is not an opener |
| Brackets.CorruptionFacts | python/day10/chunky.py:55-71 | the reported character occurs in the line and is not an opener; text after it does not change the answer; the remainder holds only openers |
| Brackets.CancelPair | python/day10/chunky.py:61-65 | removing an adjacent opener/closer pair does not change the scan |
| Brackets.BalancedRunsClean | python/day10/chunky.py:87-94 | a balanced line leaves the stack as it found it and is not corrupt |
| Brackets.CancelSomePair | python/day10/chunky.py:61-65 | a non-empty balanced line has a strictly shorter balanced line that scans the same |
| Brackets.FirstNonOpener | python/day10/chunky.py:61-63 | the index found is the end of the leading run of openers |
| Brackets.OpenersPush | python/day10/chunky.py:61-62 | a run of openers is pushed onto the stack in order |
| Brackets.PairExists | python/day10/chunky.py:61-65 | a non-empty line that scans clean has an opener directly followed by its closer |
| Brackets.CleanRunBalanced | python/day10/chunky.py:55-71 | a line that scans clean to an empty stack is balanced |
| Brackets.BalancedIffClean | python/day10/chunky.py:55-71 | a line is balanced exactly when it is not corrupt and leaves nothing unpaired |
| Brackets.Closers | python/day10/chunky2.py:49 | the completion string has one closer per unpaired opener, each closing it |
| Brackets.ClosersEmptyStack | python/day10/chunky2.py:49-81 | the completion built from the reversed stack empties the stack |
| Brackets.CompletionCloses | python/day10/chunky2.py:46-50 | an incomplete line followed by its completion string is balanced |
| Brackets.ErrorScore | python/day10/chunky.py:43-47 | a character scores 0 exactly when it is not a closer |
| Brackets.SyntaxScore | python/day10/chunky.py:43-51 | the total is at most 25137 per line |
| Brackets.SyntaxScoreAppend | python/day10/chunky.py:45-51 | the total over a file split in two is the sum of the totals |
| Brackets.SyntaxScoreOfBalanced | python/day10/chunky.py:45-49 | a balanced line adds nothing to the total |
| Brackets.OpenerValue | python/day10/chunky2.py:42 | each opener is worth 1 to 4 points |
| Brackets.CompletionScoreDigits | python/day10/chunky2.py:51-54 | the completion score is 0 only for an empty remainder, its last base-5 digit is the last opener's value and the rest is the score of the other openers |
| Brackets.Base5Digit | python/day10/chunky2.py:53-54 | one `total * 5 + val` step is undone by `% 5` and `/ 5` |
| Brackets.OpenerValueInjective | python/day10/chunky2.py:42 | different openers are worth different points |
| Brackets.CompletionScoreInjective | python/day10/chunky2.py:51-54 | different remainders get different completion scores |
| Brackets.CompletionTotals | python/day10/chunky2.py:46-56 | one positive total per incomplete line, no more totals than lines |
| Brackets.MiddleScore | python/day10/chunky2.py:59-61 | the middle score exists exactly when some line was incomplete |
| Brackets.SortedRankBelow | python/day10/chunky2.py:59-61 | in a sorted list at least k + 1 entries are at most the k-th |
| Brackets.SortedRankAbove | python/day10/chunky2.py:59-61 | in a sorted list at least n - k entries are at least the k-th |
| Brackets.MiddleScoreIsMedian | python/day10/chunky2.py:59-61 | the middle score is one of the totals, with at least half of the totals on each side of it |
| Util.RStrip | python/day01/depths.py:43 | `rstrip` removes exactly the trailing whitespace: the result is a prefix not ending in whitespace, and only whitespace was dropped |
| Util.Words | python/day02/position.py:46 | `split()` yields non-empty words holding no whitespace |
| Util.WordsOfWord | python/day02/position.py:46 | a non-empty string without whitespace splits into itself alone |
| Util.WordsSplitAt | python/day02/position.py:46 | at a whitespace character c, the words of `a + c + b` are the words of `a` followed by those of `b` |
| Util.WordsJoin | python/day04/bingo.py:53 | non-empty words without whitespace, joined by single spaces, split back into the same words |
| Util.SortByStable | python/day08/display2.py:77 | sorting keeps the input order of the elements that share a key, as Python's `sorted` does |
| Util.SplitOn | python/day06/lanternfish.py:49 | `split(',')` yields at least one piece and no piece holds the separator |
| Util.RustParse | rust/day01/depths/src/main.rs:42 | a value parsed by `parse::<usize>()` lies in range and came from a decimal numeral with at most a leading sign |
| Util.Reverse | python/day10/chunky2.py:81 | `reversed` puts element i at position n - 1 - i |
| Depths.RustReadings | rust/day01/depths/src/main.rs:40-42 | at most one reading per line, each within `usize` |
| Position.RustPilot | rust/day02/position/src/main.rs:40-53 | a run of commands that finishes leaves both counters within `usize` |
| Lanternfish.ScriptsAgree | python/day06/lanternfish2.py:57-68 | after any number of days the dictionary's total equals the length of the list lanternfish.py grows |
| Crabs.CheapestIsGlobalAll | python/day07/crabs.py:44-49 | the answer is no more than the price of any integer position at all |

## Left out

- Diagnostic.Calc, Diagnostic.CalcFrom, Diagnostic.PythonLifeSupport: these definitions carry no contract of their own. Diagnostic.CalcReturnsInputRow, Diagnostic.CalcFromReturnsInputRow, Diagnostic.LeastWantedCanEmpty and Diagnostic.RustCalc state what `calc` returns. Diagnostic.LifeSupportAgree states the product binary2.py prints.
- Brackets.Step, Brackets.Run, Brackets.Remainder, Brackets.CompletionScore: these definitions carry no contract of their own. Brackets.RunAppend, Brackets.RunStopped, Brackets.RunShape, Brackets.CorruptionFacts, Brackets.BalancedIffClean and Brackets.CompletionCloses state the scan and the remainder. Brackets.CompletionScoreDigits and Brackets.CompletionScoreInjective state the score.
- Display.Classify, Display.DecodeEntries, Display.LineValue: these definitions carry no contract of their own. Segments.ClassifiesZero to Segments.ClassifiesNine, Segments.ClassifyNone and Decoding.ClassifiesDigit state the classification. Decoding.DecodeSteps and Decoding.DecodeCorrect state the decoding, and Decoding.LineValueCorrect states the value of a line.
- Position.Move, Position.Pilot: these definitions carry no contract of their own. Position.PilotIsSums, Position.PilotPermutation, Position.RustMove and Position.RustPilotAgrees state them.
- Lanternfish.Days, Lanternfish.HistDay, Lanternfish.HistDays: these definitions carry no contract of their own. Lanternfish.DaysKeepTimers, Lanternfish.DaysNeverShrink, Lanternfish.HistDayTotal, Lanternfish.HistDayKeys, Lanternfish.HistDayRefines and Lanternfish.HistDaysRefines state them.
- LowPoints.IsLow, LowPoints.RiskLevel: these definitions carry no contract of their own. LowPoints.LowList, LowPoints.NoAdjacentLows, LowPoints.EqualNeighborNotLow and LowPoints.RiskLevelBounds state them.
- Vents.Paint, Vents.PythonGrid, Vents.RustGrid, Vents.Overlaps, Vents.RustVents: these definitions carry no contract of their own. Vents.PaintCount, Vents.PaintPermutation, Vents.PythonGridCount, Vents.PythonGridSwap, Vents.GridsAgreeOnAxisAligned, Vents.PythonOverlaps and Vents.VentsAgree state them.
- Crabs.Fuel: this definition carries no contract of its own. Crabs.FuelZero, Crabs.FuelPermutation, Crabs.FuelFartherAway and Crabs.CheapestIsGlobal state it.
- Depths.Gains: this definition carries no contract of its own. Depths.GainsBound, Depths.NoGainsWhenNonIncreasing, Depths.AllGainsWhenIncreasing and Depths.SlideSum state it.
- Grid.NeighborList: this definition carries no contract of its own. Grid.NeighborListDistinct, Grid.NeighborListElements and Grid.NeighborListIsNeighbors state it.
- Bingo.FindFrom: this definition carries no contract of its own. Bingo.FindFromFullBoard and Bingo.FindFromMonotone state it.
- File and command-line handling (`argparse`, `clap`), and all printing: the lines of the file and the arguments are parameters, and the printed answer is the result.
- Python's `int` is modelled on decimal numerals with an optional `-` sign. The other forms it accepts are not modelled: a `+` sign, underscores, surrounding whitespace and non-ASCII digits.
- The regular expressions of `find_path.py` and `vents2` are modelled as the explicit text checks they amount to for ASCII input.
- Rust's `usize` is modelled for a 64-bit target. Arithmetic that leaves the type panics, as it does in a debug build; release-build wrap-around is not modelled.
- Diagnostic.ParseBinary: Python's `int(s, 2)` also accepts underscores between digits and surrounding whitespace. The model rejects them. Signs cannot occur here: the rates are built from `0` and `1`, and a rating is a row whose first character passed the first column's filter.
- Depths.RustWindow: the window sums are `usize` sums; overflow of a window sum past 2^64 - 1 is not modelled.
- Vents.RustSegment: coordinates are read with `parse::<usize>().unwrap()`, which panics on a numeral past `usize`. The model reads such a numeral as a large coordinate instead. The Rust regex `\d` also matches non-ASCII digits; the model accepts ASCII digits only.
- Bingo.VisitConsistent: the invariant says which boards are announced, not their scores. Later marks change a board, so each score is stated by Bingo.Visit at the moment it is announced.
- FindPath.Search: the start must lie on the grid. Points are read as digits only, so no coordinate is negative, and `get_neighbors` steps up or left only from a positive row or column. A start off the grid usually has a neighbour off the grid as well, and `m.item` raises `IndexError` on it. On a one-column or one-row grid, a start just past the last cell has a single neighbour, which lies on the grid. The search then runs from there: it prints "No solution" if the end is never reached, and otherwise raises `IndexError` at `m[row, col] = 8` after printing "Found end!". None of this is modelled.
- FindPath.Search: among several shortest paths, the one reported depends on set iteration order. The model picks any of them and proves every pick is shortest. When start equals end, the code reports "No solution", because the end cell is already on the path. The model follows the code here.
- Dictionary and set iteration order is not modelled: the starting histogram that `lanternfish2.py` prints once, before the first day (each day prints only `Day NNNN`), the decoder's pattern table, and the rows of the vent grid. Every property is stated over contents, and none depends on that order.
- The numpy height map is a `seq<seq<int>>` with rows of equal length. numpy's printing of the map is left out.
- Display.DecodeAll carries no contract of its own. Its properties are stated by Display.SumValues and Decoding.LineValueCorrect.
- Util.IsSpace: the whitespace set is exactly Python's `str.isspace`, the set `split()` and `rstrip()` use. Rust's `split_whitespace` and the regex class `\s` use Unicode White_Space instead, which leaves out the four controls \x1c to \x1f.
- Position.RustCommands: splits a line at \x1c to \x1f as Python does, where Rust's `split_whitespace` keeps those characters inside a word.
- Vents.RustSegment: likewise treats \x1c to \x1f as the whitespace that `\s+` matches, which the Rust regex does not.
- Util.SortBy: its own contract states the order and the permutation; stability is stated separately by Util.SortByStable. The decoder reverses the sorted patterns, so `bits_by_len[k][0]` is the last pattern of length k in the input order; on a valid line each of the lengths 2, 3, 4 and 7 occurs once.
- Grid.Neighbors: the tests of `get_neighbors` in `basins.py` compare a list with a set. In Python that comparison is always false, so those asserts cannot pass. The model proves instead that the list holds exactly the cells of the set version in `heightmap.py`, whose tests are restated in Grid.NeighborsExamples.
- Grid.Perimeter: the `test_get_perimeter` cases of `basins.py` are not restated as examples. Instead, the contract pins down the box of the perimeter points for every input.
