# Grade aggregation and ranking: a Dafny model of `grades.py`

This project models the score engine of a course score-lookup dashboard.
Each student's raw record has eight components: midterm, midterm extra, final, and five exercises.
The engine turns each record into a weighted total rounded to two decimals.
It computes the totals of a whole section.
It ranks a student by counting the students of the section whose total is strictly greater.

- `Rounding` models `round(total, 2)`. It rounds to the nearest hundredth, with an exact tie going to the even neighbour. The properties proved are nearness, two decimals, idempotence and monotonicity.
- `Scorer` models `calc_score` and `get_student_data_dict`. `ExactTotal` is the weighted sum `mid*3/11 + mid_extra*3/11 + final*4/10 + sum(ex)*2/5`. It is computed exactly on reals. Its integer form is `110*total = 30*mid + 30*mid_extra + 44*final + 44*sum(ex)`.
- `Ranking` models `get_all_scores` and `get_student_rank`. `get_all_scores` is a method with a loop that inserts one key per iteration. `Totals` is the function that specifies it. The ranking laws are stated over any map of totals.
- `Samples` holds concrete scenarios. They use dataset entries "9243" and "0000", a malformed record, and a two-way tie.

The dataset is a parameter of type `map<string, seq<int>>`. In the source it is the global dictionary `grades`. The view (`app.py`) imports `get_grades_by_class` and `get_available_classes`, and calls `get_all_scores(section)` and `get_student_rank(id, section)`. `grades.py` has none of these in that form (it has `get_all_scores()` and `get_student_rank(id)` over the global). Here a "section" is simply whichever map is passed in, and `get_grades_by_class` / `get_available_classes` are not part of this model.

## Model

| member | source | states |
|---|---|---|
| `Rounding.RoundHalfEven` | grades.py:77 | the result is an integer within 1/2 of the input; on an exact tie it is even |
| `Rounding.RoundHalfEvenMonotone` | grades.py:77 | rounding to the nearest integer is non-decreasing |
| `Rounding.RoundHalfEvenOfInt` | grades.py:77 | an integer rounds to itself |
| `Rounding.RoundHalfEvenShiftEven` | grades.py:77 | shifting the input by an even integer shifts the rounded result by the same integer |
| `Rounding.Round2` | grades.py:77 | `round(x, 2)` lies within 0.005 of `x` and has at most two decimals |
| `Rounding.Round2OfHundredths` | grades.py:77 | a value with two decimals is left unchanged |
| `Rounding.Round2Idempotent` | grades.py:77 | rounding twice is the same as rounding once |
| `Rounding.Round2Monotone` | grades.py:77 | rounding never swaps two totals (it may merge them) |
| `Rounding.Round2AddFortyHundredths` | grades.py:77 | adding 0.4 before rounding to two decimals adds exactly 0.4 to the result |
| `Rounding.Round2NonNegative` | grades.py:77 | a non-negative total stays non-negative after rounding |
| `Scorer.Sum` | grades.py:74 | Python's `sum` over the exercise scores; a sum of non-negative scores is non-negative |
| `Scorer.SumIncrement` | grades.py:74 | raising one element by 1 raises the sum by exactly 1 |
| `Scorer.ExactTotal` | grades.py:64-75 | for a length-8 record, 110 times the unrounded total is `30*rec[0] + 30*rec[1] + 44*rec[2] + 44*sum(rec[3..8])` |
| `Scorer.CalcScore` | grades.py:46-77 | a record whose length is not 8 scores 0.0 (neither truncated nor padded); a length-8 record scores strictly within 0.005 of its exact total; every score has at most two decimals, so the score is the unique two-decimal value nearest the exact total |
| `Scorer.NoHalfHundredthTotal` | grades.py:64-77 | no length-8 record has an exact total on a half-hundredth, so rounding never meets a tie |
| `Scorer.ExerciseIncrement` | grades.py:70-77 | raising any one exercise by 1 raises the unrounded total by exactly 2/5, and the rounded score by exactly 0.4 |
| `Scorer.NonNegativeTotal` | grades.py:70-77 | with non-negative components, both the exact and the rounded total are non-negative |
| `Scorer.CalcScoreMonotone` | grades.py:70-77 | a record with a larger or equal exact total never gets a smaller rounded score |
| `Scorer.GetStudentDataDict` | grades.py:86-101 | `mid`, `mid_extra` and `final` are `s[0]`, `s[1]` and `s[2]`; `exercises` is `s[3:8]` clamped to the length of `s`; for a length-8 record, `[mid, mid_extra, final] + exercises == s` |
| `Scorer.BreakdownAgreesWithTotal` | grades.py:96-101 | the named components of the breakdown, weighted, give the record's exact total |
| `Ranking.Totals` | grades.py:110-113 | the dict `get_all_scores` returns, used in place of the call at grades.py:125: exactly the section's keys, each with `calc_score` of its record |
| `Ranking.GetAllScores` | grades.py:103-113 | the result has exactly the section's key set, and each value is `calc_score` of that id's record; nothing else is added or changed |
| `Ranking.Above` | grades.py:131 | the students counted by the generator: an id is in it exactly when its total is strictly greater than the threshold; there are no more of them than students |
| `Ranking.RankOf` | grades.py:126-131 | an absent id gets -1 (and only an absent id); a present id gets a rank between 1 and the number of students |
| `Ranking.StudentRank` | grades.py:115-132 | `get_student_rank` is -1 exactly for an id not in the section, otherwise between 1 and the section's size |
| `Ranking.AboveAntitone` | grades.py:131 | a higher total has no more students above it than a lower total |
| `Ranking.RankOrder` | grades.py:131 | equal ranks hold exactly when totals are equal, and a strictly smaller rank holds exactly when the total is strictly greater |
| `Ranking.RankOneIffMaximum` | grades.py:131 | a student has rank 1 exactly when no total in the section exceeds theirs |
| `Ranking.MaximumExists` | grades.py:131 | every non-empty section has a student holding the maximum total |
| `Ranking.SomeoneRanksFirst` | grades.py:131 | every non-empty section has a student with rank 1 |
| `Ranking.RankOneCount` | grades.py:131 | the number of rank-1 students equals the number of students holding the maximum total |
| `Ranking.ExactOrderKeepsRank` | grades.py:70-131 | a student whose exact total is at least another's never ranks below them, however rounding merges totals |
| `Ranking.CountGreater` | grades.py:131 | the generator `sum(1 for score in values if score > t)`: at most the number of values; zero exactly when no value exceeds `t`; all of them exactly when every value exceeds `t` |
| `Ranking.ValuesInOrder` | grades.py:131 | `all_scores.values()` in a given iteration order: one value per id, the i-th being the total of the i-th id |
| `Ranking.CountGreaterAnyOrder` | grades.py:131 | the generator `sum(1 for score in values if score > t)`, run over the values in any iteration order of the map, counts exactly the students above `t` |
| `Ranking.GeneratorRank` | grades.py:125-131 | the rank computed as the source does, over any iteration order, equals `StudentRank` |
| `Samples.Score9243` | grades.py:43 | record `[58,10,47,10,10,10,10,10]` has exact total 6308/110 and scores 57.35 |
| `Samples.Score0000` | grades.py:8 | record `[56,10,52,10,10,0,10,10]` has exact total 54.8 and scores 54.8 |
| `Samples.MixedTotals` | grades.py:60-62 | the totals of a section holding "9243", "0000" and a 3-component record are 57.35, 54.8 and 0.0 |
| `Samples.RanksOfThreeDistinct` | grades.py:131 | three students with strictly decreasing totals rank 1, 2 and 3 |
| `Samples.RanksOfThreeTied` | grades.py:131 | two tied leaders above a third student rank 1 and 1, and the third ranks 3 |
| `Samples.TiedTotals` | grades.py:70-77 | two different records with equal exact totals both score 57.35 |
| `Samples.RanksWithMalformedRecord` | grades.py:60-62 | a malformed record scores 0 and still ranks (last) alongside "9243" (rank 1) and "0000" (rank 2); an unknown id gets -1 |
| `Samples.TiedStudentsShareRank` | grades.py:131 | two students with equal totals both get rank 1, and the next student gets rank 3 |

## Left out

- `print` logging in `calc_score` (grades.py:61, 80, 83) is output only and is not modelled.
- The `except (IndexError, TypeError)` and `except Exception` branches (grades.py:79-84) are not modelled. A record is a sequence of integers here, so a non-numeric entry cannot occur, and the length check rules out an `IndexError`. Errors of float arithmetic are not modelled either; see the next line.
- Floating point: totals are exact reals and integers are unbounded. Python evaluates each term in binary floating point and rounds the float half-to-even, while the model rounds the exact rational value. The two agree only while the float error of the total stays below 1/2200. That is the smallest distance between the exact total of an integer record and a half-hundredth. Components above 2**53 lose far more precision than that. When one term leaves float range (for example `mid = 10**400`, grades.py:71), the source raises `OverflowError`, and the `except Exception` branch (grades.py:82-84) returns 0.0. When every term fits but their sum overflows, the source returns `inf`. In both cases the model returns the exact total rounded. No laws of the ranking depend on the rounding beyond monotonicity.
- `Scorer.GetStudentDataDict`: it requires a record of length at least 3. The source indexes `s[0..2]` without a guard, so a shorter record raises an uncaught `IndexError`.
- The literal dataset `grades` (grades.py:7-44) is not modelled as a whole. Entries "9243" and "0000" are used as concrete witnesses.
- Iteration order: `get_all_scores` walks the dictionary in insertion order. The method picks the keys in an arbitrary order, and its contract shows the result does not depend on the order. The ranking's independence from order is proved separately by `Ranking.GeneratorRank`.
- `get_grades_by_class` and `get_available_classes` imported by `app.py` are not defined in `grades.py` and are not part of this model.
- The view in `app.py` is not modelled: page layout, inputs, the mean/max/min display, the CSV export and the leaderboard table. The leaderboard numbers rows `1..n` after a `sorted` call. That is not the tie-sharing rank of `get_student_rank`.
