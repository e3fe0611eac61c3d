# Fantasy War Room 2026 — a Dafny model of the ranking engine

Fantasy War Room is a Streamlit dashboard for a fantasy-football draft. It reads
a player sheet from Google Sheets (player name, position `FantPos`, season
projection `Proj`, average draft position `ADP` and four-year historical
average `Media_4_Anos`), cleans the numeric columns written in the Brazilian
number format, gives every player a value score (`Score_Final`), looks each
player up in the Sleeper catalogue to get a Sleeper id, drops the players
already drafted, and lists the rest from the highest score down.

This project models that engine, everything from `clean_num` to the sorted
list, and proves properties of it:

- `strings.dfy` (module `Strings`): the Python `str` operations the engine
  uses. It covers `isspace`, `strip`, `upper` and single-character `replace`.
- `numbers.dfy` (module `Numbers`): spreadsheet cells and `clean_num`. It
  includes the part of Python's `float()` that `clean_num` relies on, and a
  Brazilian renderer with the round trip it completes.
- `scoring.dfy` (module `Scoring`): `score_row`, the base score and the
  position multiplier.
- `sleeper.dfy` (module `Sleeper`): the name-to-id dictionary built from the
  Sleeper catalogue.
- `frame.dfy` (module `Frame`): the sheet as an array of rows. The cleaning
  loop, the `Score_Final` column and the `sleeper_id` column are methods that
  rewrite the array in place. Each is proved against a function on sequences.
- `ranking.dfy` (module `Ranking`): the drafted-player filter, the sort by
  score, and the whole run from the raw sheet to the recommendation list. The
  run is written both as a specification function `Recommend` and as the
  method `RecommendPicks` that follows the program step by step.

Arithmetic is exact: `real` stands for Python's `float`. `clean_num`'s
exception becomes the `Err` case of a `Result`, which carries the text that
`float()` rejected.

Behaviour of app.py worth noting:

- Only the position multiplier applies. There is no tier multiplier.
- TE shares QB's multiplier.
- An empty text cell makes `float('')` raise. It is not read as 0.0
  (`Numbers.EmptyTextRejected`).
- The score is not monotone in the historical average. When the base score is
  negative (an ADP beyond 210 with little projection), a larger average raises
  the multiplier and makes the score more negative
  (`Scoring.ScoreNotMonotoneInMedia`). Monotonicity holds only while the base
  score is not negative (`Scoring.ScoreMonotoneInMedia`).
- No accent or suffix normalisation is applied to names. Names are matched by
  the exact `Player` text.

## Model

| member | source | states |
|---|---|---|
| `Numbers.CleanNum` | app.py:18-22 | A missing cell gives 0.0 and a numeric cell gives its own value. A rejected text cell reports the text after the dots are deleted and the commas turned into points. |
| `Numbers.DelocalizeSpec` | app.py:21 | The text handed to `float()` is never longer than the cell and holds no comma. It keeps every character other than `.` and `,`, and holds a point exactly when the cell held a comma. |
| `Numbers.Delocalize` | app.py:21 | The two `replace` calls of line 21. It has no contract of its own; `Numbers.DelocalizeSpec` and `Numbers.ThousandsSeparatorIgnored` state its properties. |
| `Numbers.ParseFloat` | app.py:21 | Python's `float()` on the delocalised text. It has no contract of its own; `Numbers.ParseFloatNeedsDigit`, `Numbers.ReadDigits`, `Numbers.ReadDecimal`, `Numbers.ReadNegative`, `Numbers.TabPaddingSkipped`, `Numbers.SeparatorIsNotPadding` and `Numbers.SeparatorPrefixRejected` state its properties. |
| `Numbers.ParseFloatNeedsDigit` | app.py:21 | The modelled `float()`, which has no `inf` or `nan`, accepts only text that holds a digit. |
| `Numbers.ParseUnsigned` | app.py:21 | The unsigned decimal literal inside `float()`: digits with at most one point and at least one digit. An accepted literal is never negative and holds a digit. `Numbers.ReadDigits` and `Numbers.ReadDecimal` give its value. |
| `Numbers.TabPaddingSkipped` | app.py:21 | A tab in front of a number is skipped: "\t5" is read as 5. |
| `Numbers.SeparatorIsNotPadding` | app.py:21 | The information separator U+001C is whitespace for `str.isspace()` but not for `float()`, so the cell "\x1c5" is rejected. |
| `Numbers.SeparatorPrefixRejected` | app.py:21 | Every text cell that starts with U+001C is rejected, whatever follows it. |
| `Numbers.LiteralStart` | app.py:21 | An unsigned literal that `float()` accepts starts with a digit or the point. |
| `Numbers.ThousandsSeparatorIgnored` | app.py:21 | Inserting a `.` anywhere in a text cell never changes what `clean_num` returns, value or error. |
| `Numbers.DotIsNeverDecimal` | app.py:21 | "1.5" is read as 15, because the dot is never a decimal point. |
| `Numbers.DigitsCell` | app.py:20-21 | A text cell of digits only is read as that whole number. |
| `Numbers.TwoCommasRejected` | app.py:21 | "1,2,3" becomes "1.2.3", which `float()` rejects, so `clean_num` raises. |
| `Numbers.EmptyTextRejected` | app.py:19-21 | An empty text cell is not missing: `clean_num` raises on it, and the error carries the empty text. |
| `Numbers.ReadDigits` | app.py:21 | `float()` reads a non-empty digit string as its decimal value. |
| `Numbers.ReadDecimal` | app.py:21 | `float()` reads whole digits, a point and fraction digits as whole part plus fraction. |
| `Numbers.ReadNegative` | app.py:21 | `float()` negates the literal after a leading minus sign, and rejects the text when what follows the sign is no literal. |
| `Numbers.BrazilianRoundTrip` | app.py:21 | Render a non-negative decimal with thousands dots and a decimal comma, and `clean_num` reads back exactly that decimal. |
| `Numbers.NegativeRoundTrip` | app.py:21 | The same rendering behind a minus sign is read back as the negated decimal. |
| `Numbers.ReadsBrazilianExample` | app.py:21 | "1.234,5" is read as 1234.5. |
| `Strings.TrimStartSpec` | app.py:43 | `lstrip` removes a prefix made only of whitespace and stops at the first other character. |
| `Strings.TrimEndSpec` | app.py:43 | `rstrip` removes a suffix made only of whitespace and stops at the last other character. |
| `Strings.Delete` | app.py:21 | `replace(c, '')` never lengthens the text. It keeps exactly the characters of the text other than `c`, so no `c` is left. |
| `Strings.DeleteAbsent` | app.py:21 | `replace(c, '')` changes nothing when `c` does not occur. |
| `Strings.DeleteAppend` | app.py:21 | `replace(c, '')` works character by character, so it distributes over concatenation. |
| `Strings.Replace` | app.py:21 | `replace(a, b)` for single characters. It has no contract of its own; `Strings.ReplaceAbsent`, `Strings.ReplaceAppend` and `Numbers.DelocalizeSpec` state its properties. |
| `Strings.ReplaceAbsent` | app.py:21 | `replace(a, b)` changes nothing when `a` does not occur. |
| `Strings.ReplaceAppend` | app.py:21 | `replace(a, b)` distributes over concatenation. |
| `Strings.Upper` | app.py:43 | `upper()` keeps the length, leaves no lower-case ASCII letter, and keeps every character that is not one. |
| `Strings.Strip` | app.py:43 | `strip()` with `str.isspace()`'s set; with `float()`'s set it is also the whitespace skip of line 21. It has no contract of its own; `Strings.StripSpec`, `Strings.StripDropsSpaces` and `Strings.StripUnchanged` state its properties. |
| `Strings.StripSpec` | app.py:43 | `strip()` keeps a contiguous piece of the text, starting where `lstrip()` stops, that neither starts nor ends with whitespace. |
| `Strings.StripDropsSpaces` | app.py:43 | Everything `strip()` drops on either side of that piece is whitespace. |
| `Strings.StripUnchanged` | app.py:43 | A text that neither starts nor ends with whitespace is left alone by `strip()`. |
| `Strings.TrimStart` | app.py:43 | `lstrip()`, the first half of `strip()`. It has no contract of its own; `Strings.TrimStartSpec` states its properties. |
| `Strings.TrimEnd` | app.py:43 | `rstrip()`, the second half of `strip()`. It has no contract of its own; `Strings.TrimEndSpec` states its properties. |
| `Strings.IsSpace` | app.py:43 | The characters for which `str.isspace()` holds. It is a predicate; `Strings.FloatSpacesNarrower` compares it with `float()`'s set. |
| `Strings.IsSpaceIn` | app.py:21 | Membership in one of the two whitespace sets, `Strings.Spaces`: `str.isspace()`'s or `float()`'s. It is a predicate; `Strings.FloatSpacesNarrower` and `Numbers.SeparatorPrefixRejected` state how the two differ. |
| `Strings.FloatSpacesNarrower` | app.py:21 | Every character `float()` skips is whitespace for `str.isspace()`. The two sets differ exactly on the separators U+001C to U+001F, which `float()` keeps. |
| `Scoring.Score` | app.py:31-51 | `score_row`. For a non-negative average the score has the sign of the base score. When the base is not negative, the score lies between 0.7 and 1.8 times it. |
| `Scoring.BaseScore` | app.py:33-40 | `score_base`. An unranked player (ADP 0 or less) gets nothing for ADP. A ranked player's base is at least the average and projection terms exactly when the ADP is 210 or earlier. |
| `Scoring.Multiplier` | app.py:46-49 | `mult`. For a performance factor between 0 and 1 the multiplier is never below 0.7, the DEF/K floor, and never above 1.8, the RB/WR ceiling. |
| `Scoring.NormalizePosition` | app.py:43 | `str(FantPos).upper().strip()`. It has no contract of its own; `Scoring.NormalizedShape`, `Scoring.NormalizeIdempotent` and `Scoring.PaddedLowercaseRecognised` state its properties. |
| `Scoring.NormalizedShape` | app.py:43 | A normalised code is no longer than the cell, holds no lower-case ASCII letter, and neither starts nor ends with whitespace. |
| `Scoring.EffectiveAdp` | app.py:33-34 | The ADP the formula uses is always positive, and a positive ADP is used as it is. |
| `Scoring.PerfFactor` | app.py:44 | The performance factor never exceeds 1. It equals 1 exactly from an average of 120 on. It is not negative for a non-negative average, and below 120 it is the average over 120. |
| `Scoring.UnrankedAdp` | app.py:33-40 | An ADP of zero or less scores exactly like ADP 210, so the ADP term of the base is 0. |
| `Scoring.MultiplierBounds` | app.py:44-49 | For a non-negative average: RB/WR between 1.3 and 1.8, QB/TE between 1.2 and 1.45, DEF/K between 0.7 and 0.9, any other position exactly 1.0. Each family reaches its ceiling exactly from 120 points on. |
| `Scoring.MultiplierAtZeroMedia` | app.py:44-49 | With an average of 0 the multipliers are 1.3, 1.2, 0.7 and 1.0. |
| `Scoring.MultiplierMonotone` | app.py:44-48 | A higher average never lowers the multiplier. |
| `Scoring.UnlistedScoreIsBase` | app.py:49-51 | A position outside RB, WR, QB, TE, DEF and K is scored by its base alone. |
| `Scoring.ScoreMonotoneInProj` | app.py:36-51 | For a non-negative average, a higher projection never lowers the score. |
| `Scoring.ScoreAntitoneInAdp` | app.py:33-51 | For a non-negative average and positive ADPs, an earlier ADP never scores lower. |
| `Scoring.ScoreMonotoneInMedia` | app.py:37-51 | A higher average never lowers the score while the base at the lower average is not negative. |
| `Scoring.ScoreNotMonotoneInMedia` | app.py:37-51 | Example: an RB at ADP 300 with no projection scores -105.3 with average 0 and -108.054 with average 12. |
| `Scoring.TightEndScoredAsQuarterback` | app.py:47 | A TE gets exactly the score of a QB with the same numbers. |
| `Scoring.NormalizeIdempotent` | app.py:43 | Normalising a position code (`upper().strip()`) a second time changes nothing. |
| `Scoring.PaddedLowercaseRecognised` | app.py:43-46 | Case and surrounding whitespace do not matter: " rb " is scored as an RB. |
| `Scoring.ScoreExample` | app.py:31-51 | An RB at ADP 1 with no projection and no history scores 209 × 0.9 × 1.3 = 244.53. |
| `Sleeper.NameToId` | app.py:28 | The dictionary never holds more names than the catalogue has entries. `Sleeper.NameToIdKeys` and `Sleeper.NameToIdLastWins` state its keys and values. |
| `Sleeper.NameToIdKeys` | app.py:28 | "first last" is a key of the dictionary exactly when some active player in the catalogue has that name. |
| `Sleeper.NameToIdLastWins` | app.py:28 | The id stored under a name is the id of the last active player in the catalogue with that name. |
| `Sleeper.InactiveIgnored` | app.py:28 | Adding an inactive player to the catalogue does not change the dictionary. |
| `Sleeper.LaterNamesakeWins` | app.py:28 | Of two active namesakes, the dictionary keeps the one listed later. |
| `Frame.CleanColumn` | app.py:70 | A successful `apply(clean_num)` keeps the number of rows, and every cell of the column then holds a number. `Frame.CleanColumnOk`, `Frame.CleanColumnRows`, `Frame.CleanColumnRejects` and `Frame.CleanColumnFirstError` state the rest. |
| `Frame.CleanAll` | app.py:69-70 | The cleaning loop never adds or drops a row, whether it completes or stops at a failing column. `Frame.CleanAllSpec` states the rest. |
| `Frame.CleanColumnOk` | app.py:70 | `apply(clean_num)` succeeds on a column exactly when every cell of the column is accepted. |
| `Frame.CleanColumnRows` | app.py:70 | A cleaned column keeps the rows and their order. Each row has that one cell replaced by its `clean_num` value. |
| `Frame.CleanColumnRejects` | app.py:70 | A failing column reports the text of one of its own cells. |
| `Frame.CleanColumnFirstError` | app.py:70 | The error is the one of the first rejected cell from the top. |
| `Frame.CleanColumnInPlace` | app.py:70 | The array becomes the cleaned column when every cell converts. Otherwise it is unchanged and the rejected text is returned. |
| `Frame.CleanNumericColumns` | app.py:69-70 | Cleaning `Proj`, `ADP` and `Media_4_Anos` in turn in place leaves exactly the rows and error of the column-by-column specification. |
| `Frame.CleanAllSpec` | app.py:69-70 | The loop completes exactly when every numeric cell of every row parses. It then keeps the rows and order and replaces each numeric cell by its `clean_num` value. A failure names a rejected cell. |
| `Frame.AdpFailureKeepsProj` | app.py:69-70 | When `ADP` raises after `Proj` was cleaned, `Proj` stays cleaned while `ADP` and `Media_4_Anos` keep their original cells. |
| `Frame.CleanRow` | app.py:69-70 | After cleaning, every numeric cell of a row holds a number. |
| `Frame.WithScores` | app.py:53 | The scored frame has the same rows in order. Every row has a `Score_Final` and keeps its player and its cleaned numbers. |
| `Frame.ScoreColumnSpec` | app.py:53 | Scoring keeps every row and its order. It sets each row's `Score_Final` to `score_row` of that row and leaves every other cell alone. |
| `Frame.CalculateWarRoomScore` | app.py:31-54 | The frame is updated in place to the scored frame, and the returned frame is the same object. |
| `Frame.WithIds` | app.py:79 | The frame keeps its rows. A row has a Sleeper id exactly when its `Player` text is a key of the dictionary, and it keeps its score. |
| `Frame.WithIdSpec` | app.py:79 | A row gets a Sleeper id exactly when its `Player` text is a key of the dictionary, and then the id stored under it. Nothing else in the row changes. |
| `Frame.AttachSleeperIds` | app.py:79 | The frame is updated in place to the frame with `sleeper_id` looked up for every row. |
| `Ranking.Undrafted` | app.py:82 | The filter never lengthens the frame, and every row it keeps has no id or an undrafted one. |
| `Ranking.UndraftedCounts` | app.py:82 | The filter keeps every occurrence of each undrafted row and none of a drafted one. |
| `Ranking.UndraftedMembers` | app.py:82 | A row is available exactly when it is in the scored frame and its id is not among the picks. The result is never longer than the frame. |
| `Ranking.UnmappedRowKept` | app.py:82 | A row without a Sleeper id is never filtered out. |
| `Ranking.UndraftedAccumulates` | app.py:75-82 | Filtering by two batches of picks in turn equals filtering by all of them at once. |
| `Ranking.SortByScore` | app.py:83 | The sorted list is a permutation of its input, in non-increasing `Score_Final` order, with rows that have no score last. |
| `Ranking.ProcessedFrame` | app.py:69-79 | For a sheet whose numeric cells all parse, the frame at line 79 has the same rows in order, each cleaned, scored and given its Sleeper id. |
| `Ranking.Recommend` | app.py:64-83 | A list produced by the run is in non-increasing score order and is never longer than the sheet. `Ranking.RecommendSpec` states the rest. |
| `Ranking.RecommendSpec` | app.py:64-83 | The run produces a list exactly when every numeric cell parses, and otherwise fails with the text of a rejected cell. The list is sorted by score, and every row in it is scored, undrafted and the processed version of an input row. The processed version of each input row is in it exactly when that row was not drafted. Each undrafted processed row appears as many times as in the processed sheet, and no drafted row appears, so the list is a reordering of the undrafted rows. |
| `Ranking.AvailableRows` | app.py:82-83 | Any reordering of the filtered frame holds each undrafted row as often as the frame does and no drafted row. |
| `Ranking.RecommendPicks` | app.py:64-83 | The step-by-step run returns what `Recommend` specifies. On success the sheet it was given ends up as the processed frame, because `df_scored` aliases `df_raw`. On failure the sheet keeps the columns cleaned before the failing one and the rest as they were. |
| `Ranking.TopRunningBack` | app.py:64-83 | Example: a single RB with ADP "1,0", an empty projection, no history and no picks gives a one-row list scored 244.53. |

## Left out

- The Streamlit interface (app.py:6-15, 57-61, 85 onwards) is not modelled: page setup, sidebar, metrics, the twenty-row table and its formatting, and the error box.
- Network access is not modelled. The Sleeper catalogue (app.py:25-27) and the draft's picks (app.py:74-75) are parameters, and the one-hour cache (app.py:24) is left out.
- The Google Sheets read (app.py:65-66) is not modelled. The sheet is a parameter.
- Failures other than `clean_num`'s are not modelled. These include network errors, a missing sheet column, and a catalogue record without `first_name` or `last_name`.
- Floating point is not modelled. All arithmetic is exact over `real`, so rounding, overflow, `inf` and `nan` results are absent.
- Numbers.ParseFloat: covers digits with at most one point and an optional sign, surrounded by the whitespace `float()` skips. Exponents, `inf`/`nan`, underscores and non-ASCII digits are not accepted here, although Python's `float()` accepts them.
- Numbers.ParseFloatNeedsDigit: holds for the modelled `float()` only. Python's `float()` also accepts `nan`, `inf` and `infinity` in any case, with an optional sign, none of which holds a digit; the model rejects them, so a cell reading "nan" gives an error here where app.py gets NaN.
- Strings.Upper: maps only the ASCII letters a-z. Python's `upper()` also maps other scripts. This matters only for non-ASCII position codes.
- Cells are missing, numbers or text. Boolean cells and the `-0.0` / `0.0` distinction are not represented.
- `FantPos` and `Player` are text. A missing `FantPos`, which `str()` turns into "nan", is given as that text. A missing `Player` is not represented.
- Only the columns the engine reads or writes are represented. Every step leaves the other columns alone.
- Ranking.SortByScore: an insertion sort, so `Ranking.Recommend` and `Ranking.RecommendPicks` keep rows with equal scores in input order. pandas' default `sort_values` is not stable and may order such rows differently. The contracts of `Ranking.SortByScore` and `Ranking.RecommendSpec` fix the multiset of rows and the order of scores but not the order among equal scores. `Ranking.RecommendPicks` and `Ranking.TopRunningBack` state the exact list the model computes, tie order included.
