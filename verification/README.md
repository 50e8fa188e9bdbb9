# Trebuchet calibration and cube games, in Dafny

A model of two Advent of Code 2023 solutions: day 1 and day 2.

**Day 1** reads a calibration value from each line: the first digit and the last digit, read as a two-digit number. It sums the values over a document. In part two, spelled-out digits ("one" … "nine") count as well. `process_words` handles them by rewriting each word as its first letter, its digit and its last letter, one `str.replace` per word. This rewriting means words sharing a letter ("eightwo", "twone", "oneight") both survive.

**Day 2** handles records such as `Game 3: 8 green, 6 blue, 20 red; 5 blue, 4 red`:

- `clean_game` parses a record into a game number and a list of draws. Each draw is a dict from colour to count.
- `test_plausibility` checks every count against a limit per colour.
- `get_fewest_cubes` multiplies the largest count of each colour.
- `sum_games` adds up the numbers of the plausible games and the products.

The modules follow the two programs:

| module | file | what it holds |
|---|---|---|
| `Wrappers` | wrappers.dfy | `Option`, for the results of calls that can raise |
| `Decimal` | decimal.dfy | digit characters, `int()` on a digit string, `str()` of a number |
| `Calibration` | calibration.dfy | `extract_calibration`, and the reference definition "first and last element of the digit subsequence" |
| `StrReplace` | replace.dfy | `str.replace`: left to right, no overlaps |
| `SpelledDigits` | spelled.dfy | the `numbers` table, the `conversion` encoding, `process_words`, and a reference forward scan |
| `CalibrationSum` | calibration_sum.dfy | the loop of `sum_calibrations` |
| `CalibrationExamples` | day1_examples.dfy | the overlapping words named beside the table |
| `Dicts` | dicts.dfy | Python dicts as insertion-ordered association lists |
| `Tokenize` | tokenize.dfy | `re.split` with an alternation of fixed delimiters and `\s`; `str.split()` |
| `Games` | games.dfy | `clean_game` and the dict comprehension over tokens |
| `GameFormat` | game_format.dfy | how a game is written as a record, with the round trip through `clean_game` |
| `Plausibility` | plausibility.dfy | `test_plausibility` |
| `Fewest` | fewest.dfy | `get_fewest_cubes` |
| `GameSum` | game_sum.dfy | the loop of `sum_games` |
| `GameExamples` | day2_examples.dfy | the five games of the docstring, and the sample's sums 8 and 2286 |

A call that raises in Python is `None` in the model:

- `int("")` or a non-number count token (`ValueError`).
- A line without a digit, where `None + None` raises (`TypeError`).
- A record without a game number (`IndexError`).
- A colour without a limit (`KeyError`).

One error ends the whole run, so every fold is `None` as soon as one line is.

A Python dict is a sequence of `(key, value)` pairs:

- `d[k] = v` keeps an existing key in its place and appends a new key. Iteration order, and so the order of the product in `get_fewest_cubes`, follows the program.
- The comprehension of `clean_game` lets a colour named twice keep its first position but take its last count. The model does the same.

The properties of each operation are stated against an independent reference definition:

- **Digits of a line.** The reference is the subsequence of digit characters.
- **Spelled words.** The reference is a forward scan that reads a digit, or a table word starting at that position. `DigitsOfProcessed` proves that the digits of the text after the chained `str.replace` calls are exactly the digits that scan reads. The proof holds for any table that is `OverlapFree`: no word holds, from its second letter on, the first two letters of a word; no two words begin with the same two letters; and no word begins and ends with the same letter. `NumbersOverlapFree` proves the program's table is one. Without the last condition the rewriting can lose a word: a table with the one word "ara" turns "arara" into "a1ara", one digit where the scan reads two.
- **Parsing.** The reference is the record format. `CleanFormat` proves `clean_game` inverts it.
- **Plausibility.** The reference is "every count within its colour's limit".
- **Fewest cubes.** The reference is "the largest count of each colour drawn". `LeastLimits` proves that these maxima are the least limits under which the game is plausible.

## Model

| member | source | states |
|---|---|---|
| Decimal.IsDigit | day1/day1.py:25 | `str.isdigit` on one character: the ASCII digits (see Left out); the calibration lemmas below are stated with it |
| Calibration.ExtractCalibration | day1/day1.py:13-35 | the scan's result is the number formed by the first and the last digit character of the text; it raises exactly when the text has no digit; the value is at most 99 |
| Calibration.EarliestAndLatest | day1/day1.py:23-35 | when position i holds the earliest digit and j the latest, the value is 10 × digit(i) + digit(j) |
| Calibration.SingleDigit | day1/day1.py:29-33 | a line with one digit d uses it as both first and last digit: the value is 11 × d |
| Calibration.NonDigitsIrrelevant | day1/day1.py:25-26 | inserting text without digits anywhere in a line leaves its value unchanged |
| Calibration.DigitsAppend | day1/day1.py:23-26 | the digits of a concatenation are the digits of the first part followed by those of the second |
| Decimal.ValueOfPair | day1/day1.py:35 | `int` of two digit characters a, b is 10 × a + b, at most 99 |
| Decimal.ParseNat | day2/day2.py:29 | `int()` succeeds exactly on a non-empty string of ASCII digits |
| Decimal.ParseShow | day2/day2.py:41 | reading back the decimal text of n gives n |
| StrReplace.Replace | day1/day1.py:66 | `str.replace`: each occurrence, left to right, without overlaps; its properties are `ReplaceAbsent`, `AllReplaced` and `NoNewOccurrence` |
| StrReplace.ReplaceAbsent | day1/day1.py:66 | replacing a pattern that does not occur leaves the text unchanged |
| StrReplace.AllReplaced | day1/day1.py:66 | after replacing a word with its first letter, a digit and its last letter, the word no longer occurs (first and last letters differ) |
| StrReplace.NoNewOccurrence | day1/day1.py:66 | such a replacement creates no occurrence of any digit-free word that was not already there |
| SpelledDigits.ProcessWords | day1/day1.py:40-68 | `process_words`: the nine replacements in the table's order; its properties are `DigitsOfProcessed`, `ProcessWordsAbsent`, `DigitsKept` and `WordsGone` |
| SpelledDigits.NumbersOverlapFree | day1/day1.py:47-58 | the `numbers` table is `OverlapFree`: two of its words share at most a last and a first letter, as the comment on edge cases says, no two begin with the same two letters, and none begins and ends with the same letter |
| SpelledDigits.EntryBracketing | day1/day1.py:61-62 | each conversion keeps the word's first and last letter and puts the word's digit between them |
| SpelledDigits.ScanReplace | day1/day1.py:65-66 | one `replace` step leaves the forward-scan reading of the text unchanged |
| SpelledDigits.ScanConversions | day1/day1.py:65-66 | any number of the loop's steps leave the forward-scan reading unchanged |
| SpelledDigits.WordsGone | day1/day1.py:61-66 | after the loop's first n steps, none of the first n words occurs in the text |
| SpelledDigits.DigitsOfProcessed | day1/day1.py:40-68 | the digits of `process_words(text)` are exactly the digits and spelled words of `text` in position order, overlapping words included |
| SpelledDigits.CalibrationOfProcessed | day1/day1.py:40-68 | part two's value of a line is the first and last element of that forward reading |
| SpelledDigits.ProcessWordsAbsent | day1/day1.py:65-66 | a text containing no spelled digit comes back unchanged |
| SpelledDigits.DigitsKept | day1/day1.py:40-68 | the original digit characters survive `process_words` in order |
| SpelledDigits.OverlappingPairIn | day1/day1.py:57-62 | two table words sharing a letter read as both digits, first word's digit first |
| CalibrationExamples.NumbersOverlap | day1/day1.py:47-55 | for the program's table, any two words sharing a letter give the two-digit value of their digits |
| CalibrationExamples.OneEight | day1/day1.py:47 | "oneight" has value 18 in part two |
| CalibrationExamples.TwoOne | day1/day1.py:48 | "twone" has value 21 in part two |
| CalibrationExamples.EightTwo | day1/day1.py:54 | "eightwo" has value 82 in part two |
| CalibrationSum.SumCalibrations | day1/day1.py:73-82 | the loop's sum is the sum of the lines' values, after `process_words` in part two; it raises exactly when some line has no digit |
| CalibrationSum.SumTexts | day1/day1.py:78-81 | the accumulating loop computes the left fold of the values, failing at the first failing line |
| CalibrationSum.TotalFails | day1/day1.py:78-81 | a document's sum fails exactly when one of its lines fails |
| CalibrationSum.TotalAppend | day1/day1.py:78-81 | the sum of a document in two parts is the sum of the parts' sums |
| CalibrationSum.TotalBound | day1/day1.py:78-81 | a document's sum is at most 99 per line |
| CalibrationSum.WordModeLine | day1/day1.py:79-81 | in part two a line's value is that of its forward reading |
| CalibrationSum.SumStep | day1/day1.py:81 | one more line adds its value to the running sum, or makes the whole sum fail |
| Dicts.Get | day2/day2.py:54 | `d[k]`, `None` for the `KeyError`; its property is `GetSpec` |
| Dicts.Put | day2/day2.py:77 | `d[k] = v`; its properties are `PutGet`, `PutKeys` and `PutValid` |
| Dicts.GetSpec | day2/day2.py:54 | `d[k]` raises exactly when k is not a key, and otherwise yields the value of an entry for k |
| Dicts.PutGet | day2/day2.py:77 | after `d[k] = v`, `d[k]` is v and every other key keeps its value |
| Dicts.PutKeys | day2/day2.py:77 | `d[k] = v` keeps the key order for an existing key and appends a new key last |
| Dicts.PutValid | day2/day2.py:77 | `d[k] = v` keeps keys distinct |
| Dicts.GetOrSpec | day2/day2.py:77 | `max_cubes.get(color, 0)` is the default exactly when the colour is not a key, and otherwise the count of that colour's entry |
| Dicts.GetValid | day2/day2.py:54 | in a dict with distinct keys, `d[k] == v` exactly when (k, v) is an entry |
| Tokenize.SplitOn | day2/day2.py:26 | `re.split` with fixed delimiters: always at least one piece; its inverse property is `SplitJoin` |
| Tokenize.SplitWhitespace | day2/day2.py:29 | `str.split()`: the non-empty runs between whitespace; its inverse property is `SplitWhitespaceJoin` |
| Tokenize.FirstMatch | day2/day2.py:26 | the alternation matches at the front exactly when one of its alternatives does |
| Tokenize.SplitJoin | day2/day2.py:26 | `re.split` undoes joining pieces with a separator the pattern matches whole, when no piece holds a delimiter start |
| Tokenize.SplitWhitespaceJoin | day2/day2.py:29 | `str.split()` undoes joining non-empty words without whitespace with single spaces |
| Games.PairsOddIndices | day2/day2.py:41 | every odd index `idx` is read, its token as the colour and the token before it as the count, into pair `idx / 2`; there are as many pairs as odd indices; a last token at an even index is never read |
| Games.PairFromOddIndex | day2/day2.py:41 | every pair read comes from an odd index: its colour is the token there and its count the token before |
| Games.CleanGame | day2/day2.py:15-42 | `clean_game`, `None` where it raises; `Games.CleanGameSpec` states when it fails and what it gives, and `GameFormat.CleanFormat` proves it inverts writing a record |
| Games.CleanGameSpec | day2/day2.py:26-42 | `clean_game` raises exactly when the text before the first `": "`/`"; "` has fewer than two words (`split()[1]`), its second word is not a number (`int`), or a later segment has a count that is not a number; otherwise the game number is that word's value and the draws are the later segments' draws, in order |
| Games.DrawFails | day2/day2.py:41 | the comprehension raises exactly when some count token is not a number |
| Games.DrawValid | day2/day2.py:41 | the comprehension builds a dict with distinct colours |
| Games.DrawColours | day2/day2.py:41 | a colour is a key of the draw exactly when it is named at an odd position |
| Games.DrawCount | day2/day2.py:41 | a colour's count is the number before its last mention |
| Games.ParseDraws | day2/day2.py:35-42 | the list of draws fails exactly when some segment fails, and otherwise holds each segment's draw in order |
| GameFormat.SegmentsOfFormat | day2/day2.py:26 | splitting a record on `": "` and `"; "` gives its header and each draw's text |
| GameFormat.HeaderOfFormat | day2/day2.py:29 | the header `Game <n>` splits into `Game` and the number's text |
| GameFormat.ParseFormatDraw | day2/day2.py:35-41 | a draw's text parses back to the same dict, in the same order |
| GameFormat.DrawsOfFormat | day2/day2.py:35-42 | the draws' texts parse back to the same draws |
| GameFormat.CleanFormat | day2/day2.py:15-42 | `clean_game` of a record written from a game gives back that game's number and draws |
| Plausibility.TestPlausibility | day2/day2.py:46-55 | `test_plausibility`, `None` for the `KeyError`; `PlausibleSpec` states it against the reference `WithinLimits` |
| Plausibility.CheckDrawSpec | day2/day2.py:54-55 | one draw's comparisons raise exactly on a colour without a limit, and are all true exactly when each count is within its limit |
| Plausibility.PlausibleSpec | day2/day2.py:46-55 | `test_plausibility` raises exactly when a colour drawn has no limit, and is true exactly when every count is within its colour's limit |
| Plausibility.RemoveDraws | day2/day2.py:54-55 | keeping only some of a plausible game's draws keeps it plausible |
| Plausibility.RaiseLimits | day2/day2.py:54-55 | raising limits keeps a plausible game plausible |
| Fewest.MaxCubes | day2/day2.py:71-77 | the `max_cubes` dict the loops build; `MaxCubesSpec` states its keys and values |
| Fewest.FewestCubes | day2/day2.py:59-83 | `get_fewest_cubes`: a game without draws gives the empty product 1; `FewestOfMaxima`, `LeastLimits` and `FewestSameDraws` state the rest |
| Fewest.MaxCubesSpec | day2/day2.py:75-77 | `max_cubes` has a key exactly for each colour drawn, with the largest count drawn of it |
| Fewest.Sufficient | day2/day2.py:59-63 | a game is plausible under its own maxima |
| Fewest.LeastLimits | day2/day2.py:59-77 | a game is plausible under a configuration exactly when every maximum has a limit at least as large: the maxima are the fewest cubes |
| Fewest.FewestOfMaxima | day2/day2.py:71-83 | the result is the product of the values of any dict that holds exactly the colours drawn with their largest counts |
| Fewest.FewestSameDraws | day2/day2.py:75-83 | the result does not depend on the order or repetition of the draws |
| Fewest.SameMaxima | day2/day2.py:75-77 | draws with the same members give the same maximum for every colour |
| Fewest.ProductRemove | day2/day2.py:80-81 | the product is the product of the other values times any one value |
| GameSum.SumGames | day2/day2.py:87-98 | the two sums of `sum_games`; `SumGamesFails`, `SumGamesAppend` and `SumOfRecords` state them |
| GameSum.SumGamesFails | day2/day2.py:93-97 | the sums fail exactly when some record makes `clean_game` or `test_plausibility` raise |
| GameSum.SumGamesAppend | day2/day2.py:93-97 | the sums of a document in two parts add the parts' sums componentwise |
| GameSum.GameTotalsOfRecord | day2/day2.py:94-97 | a written game's record adds its number when plausible and its fewest-cubes product |
| GameSum.AddGame | day2/day2.py:96-97 | one more game adds its number if plausible, and its product |
| GameSum.SumOfRecords | day2/day2.py:87-98 | for a document of written games, the sums are the plausible games' numbers and the fewest-cubes products |
| GameExamples.FewestThree | day2/day2.py:75-83 | a game of three colours needs the product of their largest counts |
| GameExamples.PlausibleThree | day2/day2.py:46-55 | under limits for three colours, a game of those colours is plausible exactly when each largest count is within its limit |
| GameExamples.Game1 | day2/day2.py:65 | game 1 of the docstring needs 48 and is within 12 red, 13 green, 14 blue |
| GameExamples.Game2 | day2/day2.py:66 | game 2 needs 12 and is within the limits |
| GameExamples.Game3 | day2/day2.py:67 | game 3 needs 1560 and is not within the limits |
| GameExamples.Game4 | day2/day2.py:68 | game 4 needs 630 and is not within the limits |
| GameExamples.Game5 | day2/day2.py:69 | game 5 needs 36 and is within the limits |
| GameExamples.GameC | day2/day2.py:18 | the draws of the `clean_game` docstring need 36 and are within the limits |
| GameExamples.SampleSums | day2/day2.py:64-69 | the five docstring games, written as records, sum to 8 and 2286 under the default limits |
| GameExamples.ParseExample | day2/day2.py:15-42 | `Game 1: 3 blue, 4 red` parses to game 1 with one draw {blue: 3, red: 4} |

## Left out

- Reading the input file, `print` and the `__main__` block are not modelled. A document is a sequence of lines, and the sums are returned.
- Calibration.ExtractCalibration: the value ranges over 0..99, not 11..99. `first_digit` holds a one-character string, so a first digit '0' counts as found, and a line whose digits start with 0 gives a value below 10. The code is followed here. The range 11..99 relies on the puzzle input having no zero digit.
- Decimal.IsDigit: covers the ASCII digits only. Python's `str.isdigit` also accepts other Unicode digits, some of which `int()` then rejects.
- Decimal.ParseNat: accepts non-empty ASCII digit strings only. Python's `int()` also accepts a sign, surrounding whitespace, underscores between digits and non-ASCII decimal digits. Tokens split on `\s` hold no whitespace, but a token such as `+3` is a number to Python and a failure here.
- Tokenize.SplitOn: not a regular-expression engine. It models `re.split` only for what the program uses: alternations of fixed texts and `\s`, tried left to right, with no empty match.
- CalibrationSum.SumCalibrations: first prepares every line with `process_words` when `part1` is false, then sums. The Python loop interleaves the two. Both steps are pure, so the result is the same.
- GameSum.SumGames: the loop of `sum_games` is a left fold written as a function, not as a method with a loop.
- The day-1 sample total over several lines is not proved. Only the three overlapping words named next to the table are.
- GameFormat.CleanFormat: the round trip is stated for records written from games whose colours are lower-case words and which have at least one draw. For any other line, `Games.CleanGameSpec` states when `clean_game` raises: a missing or non-numeric game number, or a count that is not a number, with `Games.DrawFails` for the counts of one draw.
- The default argument `max_config` is the constant `Plausibility.DefaultConfig`. The sharing of a mutable default between calls plays no part, because it is never mutated.
