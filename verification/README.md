# САН questionnaire scoring — a Dafny model

This project models the scoring engine of a small web application that runs
the САН questionnaire (самочувствие, активность, настроение: well-being,
activity, mood). It also models the age rule of the participant record. Both
live in `san_app/models.py`.

- A `Response` holds a phase (before or after the session) and thirty raw
  answers `q1..q30`. The survey form shows seven values, -3..3, for each
  answer (`san_app/forms.py:15-18`), but nothing on the server rejects other
  integers (see "## Findings"). The scoring functions take the -3..3 range as
  their precondition, and the 1..7 and [1, 7] bounds below hold under it. Here
  the thirty fields are the sequence `answers`, and question `q` sits at index
  `q - 1`.
- `get_score` turns one answer into an item score on 1..7. The direction comes
  from a fixed thirty-entry polarity table, so that 7 is always the positive
  pole.
- The well-being, activity and mood scores are each the mean item score of a
  fixed group of ten questions. The overall score is the mean of all thirty.
- A participant's age is the number of whole years between the birth date and
  the current date.

The model is pure: datatypes, functions and lemmas, matching the source. No
method in the source changes a field.

Module `ResponseScoring` (`scoring.dfy`) holds the scoring. Module
`ParticipantAge` (`participant.dfy`) holds the participant record and its age.

The divisions `sum(...) / 10` and `sum(...) / 30` are modelled exactly, as
Dafny `real`. The current date, which the source reads from the clock, is a
parameter of `Age`.

## Model

| member | source | states |
|---|---|---|
| `ResponseScoring.DefaultResponse` | san_app/models.py:28-57 | a new response is well formed and every one of its thirty answers is 0 |
| `ResponseScoring.ItemScore` | san_app/models.py:74-77 | for an answer in -3..3 the score lies in 1..7; it is one more than the answer's distance from the negative pole, and seven less its distance from the positive pole |
| `ResponseScoring.GetScore` | san_app/models.py:71-77 | the score of question q (1..30) uses answer q and polarity entry q; it lies in 1..7 and is one more than that answer's distance from the question's negative pole |
| `ResponseScoring.SumScores` | san_app/models.py:81-82 | the sum of the item scores of n listed questions lies between n and 7n |
| `ResponseScoring.GroupMean` | san_app/models.py:79-97 | the mean item score of a non-empty list of questions lies in [1, 7] |
| `ResponseScoring.WellbeingScore` | san_app/models.py:79-82 | the well-being score is the sum over the ten well-being questions divided by 10, and lies in [1, 7] |
| `ResponseScoring.ActivityScore` | san_app/models.py:84-87 | the activity score is the sum over the ten activity questions divided by 10, and lies in [1, 7] |
| `ResponseScoring.MoodScore` | san_app/models.py:89-92 | the mood score is the sum over the ten mood questions divided by 10, and lies in [1, 7] |
| `ResponseScoring.OverallScore` | san_app/models.py:94-97 | the overall score is the sum over all thirty questions divided by 30, and lies in [1, 7] |
| `ResponseScoring.Range` | san_app/models.py:96 | `range(lo, hi)` has hi - lo elements (none if hi <= lo), and element k is lo + k |
| `ResponseScoring.ItemScoreCorners` | san_app/models.py:74-77 | left-positive maps +3 to 7 and -3 to 1; right-positive maps +3 to 1 and -3 to 7 |
| `ResponseScoring.ItemScoreExtremes` | san_app/models.py:74-77 | for an answer in -3..3, the score is 7 exactly at the positive pole and 1 exactly at the negative pole |
| `ResponseScoring.RawItemScore` | san_app/models.py:74-77 | `get_score`'s conditional on any stored integer answer; its score lies in 1..7 exactly when the answer is in -3..3 |
| `ResponseScoring.RawItemScoreLeavesScale` | san_app/models.py:74-77 | as written, the transform scores any answer outside -3..3 below 1 or above 7 |
| `ResponseScoring.StoredNineScoresThirteen` | san_app/models.py:74-77 | as written, a stored 9 on a left-positive question scores 13 |
| `ResponseScoring.ValidateResponse` | san_app/forms.py:14-18 | the range check the form is evidently meant to make, which the form as written does not make (see "## Findings"): a response is accepted exactly when it has thirty answers and the transform as written keeps every one of them in 1..7; an accepted response keeps its phase and answers and is well formed |
| `ResponseScoring.OffScaleAnswerRejected` | san_app/models.py:74-77 | thirty answers with one outside -3..3 leave some question's as-written score off the 1..7 scale |
| `ResponseScoring.ValidatedScoresInScale` | san_app/models.py:71-97 | on every response the range check accepts, each question's score is the as-written transform of its answer and lies in 1..7, and all four scores lie in [1, 7] |
| `ResponseScoring.ItemScoreFlip` | san_app/models.py:74-77 | scoring one answer under each of the two polarities gives two scores that add up to 8 |
| `ResponseScoring.ItemScoreMonotone` | san_app/models.py:74-77 | a higher answer scores strictly higher on a left-positive question and strictly lower on a right-positive one |
| `ResponseScoring.PolaritiesCoverQuestions` | san_app/models.py:61-65 | the polarity table has 30 entries, so the lookup at entry q - 1 is in range for every question q in 1..30 |
| `ResponseScoring.GroupsAreTenQuestions` | san_app/models.py:67-69 | each group lists ten distinct questions, all in 1..30 |
| `ResponseScoring.GroupsDisjoint` | san_app/models.py:67-69 | no question is in two groups |
| `ResponseScoring.GroupsCover` | san_app/models.py:67-69 | a number is a question (1..30) exactly when it is in one of the groups |
| `ResponseScoring.AllItemsAreTheQuestions` | san_app/models.py:96 | `range(1, 31)` lists 1, 2, ..., 30 in order, each question exactly once |
| `ResponseScoring.ConcatenatedGroupsAreTheQuestions` | san_app/models.py:67-69 | the three groups one after another repeat no question and name exactly the questions 1..30 |
| `ResponseScoring.SumScoresAppend` | san_app/models.py:81-82 | the sum over two lists joined is the sum of the two sums |
| `ResponseScoring.SumScoresRemove` | san_app/models.py:81-82 | taking one question out of a list takes exactly its item score out of the sum |
| `ResponseScoring.SumScoresPermutation` | san_app/models.py:94-97 | any two lists with the same multiset of questions have the same sum |
| `ResponseScoring.SumScoresConstant` | san_app/models.py:81-82 | questions that all score c sum to c times their number |
| `ResponseScoring.SumScoresAtTop` | san_app/models.py:81-82 | the sum equals 7n exactly when every listed question scores 7 |
| `ResponseScoring.SumScoresAtBottom` | san_app/models.py:81-82 | the sum equals n exactly when every listed question scores 1 |
| `ResponseScoring.SumOverPartition` | san_app/models.py:94-97 | if three lists together name each question of a fourth list exactly once, their sums add up to the fourth list's sum |
| `ResponseScoring.OverallIsMeanOfComposites` | san_app/models.py:94-97 | the overall score equals the mean of the well-being, activity and mood scores |
| `ResponseScoring.GroupMeanAtTop` | san_app/models.py:79-92 | a group's mean is 7 exactly when every question in it is answered at its positive pole |
| `ResponseScoring.GroupMeanAtBottom` | san_app/models.py:79-92 | a group's mean is 1 exactly when every question in it is answered at its negative pole |
| `ResponseScoring.DefaultScoresAreFour` | san_app/models.py:28-57 | with every answer at its default of 0, all four scores are exactly 4 |
| `ResponseScoring.PositivePoleScoresSeven` | san_app/models.py:74-97 | with every answer at its positive pole, all four scores are exactly 7 |
| `ParticipantAge.Age` | san_app/models.py:16-18 | the age is the n whose n-th birthday (same month and day, n years on) falls on or before today, while the (n+1)-th does not |
| `ParticipantAge.AgeIsUnique` | san_app/models.py:16-18 | only one n satisfies that condition, so it determines the age |
| `ParticipantAge.AgeOnBirthday` | san_app/models.py:16-18 | on the n-th birthday the age is exactly n |
| `ParticipantAge.AgeNonNegative` | san_app/models.py:16-18 | the age is at least 0 when the birth date is on or before today, and 0 on the day of birth |
| `ParticipantAge.AgeMonotone` | san_app/models.py:16-18 | the age never decreases as today moves later |
| `ParticipantAge.AgeStepsAtBirthday` | san_app/models.py:16-18 | on every day from the (n-1)-th birthday up to the day before the n-th the age is n - 1, and on the n-th birthday it becomes n |

## Left out

- Floating point: the source divides with Python floats. The model divides exactly in `real`, so the agreement between the overall score and the mean of the composites holds exactly here. With floats it may differ in the last bit.
- Dates are modelled as any (year, month, day) triple. Calendar validity (month lengths, leap years) is not checked: the age rule and every property above hold for all triples. A 29 February birthday in a non-leap year is therefore ordered between 28 February and 1 March, which is what the source's tuple comparison does.
- `date.today()` becomes the `today` parameter of `Age`.
- `GetScore` requires a question number in 1..30. Outside that range the source fails at the attribute lookup `q{q_num}`. Every caller in the source passes a number from the group lists or from `range(1, 31)`.
- ItemScore: requires its answer in -3..3, and so do GetScore, SumScores, GroupMean and the four score functions (through `WellFormed`). The survey form shows only these seven values, but the stored fields accept any integer, and the source scores them all. For answers outside -3..3 the model states only what `RawItemScore` and `RawItemScoreLeavesScale` show: the score leaves 1..7, so the [1, 7] bounds then fail (see "## Findings").
- The `__str__` methods of both models: display text only.
- Persistence: foreign keys, cascade deletes, the `auto_now_add` timestamp and field labels are database behaviour, not logic. The `Participant` datatype keeps the name, gender and birth date and leaves out the link to the user account.
- The request handlers, report charts, URL table, admin registration and template filter are not part of this model. This includes the approximate age used in reports (days divided by 365.25).
- Access control and the automatic creation of a participant on first profile visit do not appear in `san_app/models.py`. The routing table names views whose code is not among the modelled files. These are not part of this model.

## Findings

| source | as written | input that shows it | evidently intended | confidence | as-written member | corrected member |
|---|---|---|---|---|---|---|
| san_app/forms.py:14-18 | the answer fields `q1..q30` are plain integer fields (san_app/models.py:28-57); the form only gives them a radio widget with seven choices, which limits what is displayed but not what is accepted, and `take_survey` saves whatever the form accepts (san_app/views.py:57-61) | a submission with q1 = 9: `get_score(1)` returns 13, and the well-being score can exceed 7 | answers outside -3..3 are rejected before a response is stored, so every item score lies in 1..7 and every composite score in [1, 7] | not executed; medium | `ResponseScoring.RawItemScore`, `ResponseScoring.RawItemScoreLeavesScale` | `ResponseScoring.ValidateResponse` |
