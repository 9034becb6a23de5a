/**
 * Scoring of one САН questionnaire response (well-being, activity, mood).
 *
 * A response holds thirty raw answers, one per bipolar adjective pair, each in
 * -3..3. Every answer is turned into an item score on a 1..7 scale whose
 * direction is fixed per question by a polarity table; three fixed groups of
 * ten questions are averaged into the well-being, activity and mood scores,
 * and all thirty into the overall score.
 *
 * The fields q1..q30 of the stored record are the sequence `answers`, with
 * question q held at index q - 1.
 */
module ResponseScoring {

  /** Number of questions (the fields q1..q30). */
  const QuestionCount := 30

  /** Whether a response was collected before or after the session. */
  datatype Phase = Before | After

  /** A stored response: its phase and the raw answers to questions 1..30. */
  datatype Response = Response(phase: Phase, answers: seq<int>)

  datatype Option<T> = None | Some(value: T)

  /** The seven values the survey form offers for every question. */
  predicate IsAnswer(v: int) {
    -3 <= v <= 3
  }

  /** A question number accepted by the score lookup. */
  predicate IsQuestion(q: int) {
    1 <= q <= QuestionCount
  }

  predicate AreQuestions(items: seq<int>) {
    forall i :: 0 <= i < |items| ==> IsQuestion(items[i])
  }

  /** Thirty answers, each one the form can produce. */
  predicate WellFormed(r: Response) {
    && |r.answers| == QuestionCount
    && forall k :: 0 <= k < |r.answers| ==> IsAnswer(r.answers[k])
  }

  predicate Distinct(s: seq<int>) {
    forall i, j :: 0 <= i < j < |s| ==> s[i] != s[j]
  }

  /** true: the left-hand adjective of question k + 1 is the positive pole. */
  const Polarities: seq<bool> := [
    true, true, false, false, true, true, true, true, false, false,
    true, true, false, true, false, false, true, true, true, true,
    false, false, true, true, true, true, false, false, true, true
  ]

  const WellbeingItems: seq<int> := [1, 2, 7, 8, 13, 14, 19, 20, 25, 26]
  const ActivityItems: seq<int> := [3, 4, 9, 10, 15, 16, 21, 22, 27, 28]
  const MoodItems: seq<int> := [5, 6, 11, 12, 17, 18, 23, 24, 29, 30]

  /** `range(lo, hi)`: the integers lo, lo + 1, ..., hi - 1. */
  function Range(lo: int, hi: int): (s: seq<int>)
    ensures |s| == if lo <= hi then hi - lo else 0
    ensures forall k :: 0 <= k < |s| ==> s[k] == lo + k
    decreases hi - lo
  {
    if lo >= hi then [] else [lo] + Range(lo + 1, hi)
  }

  /** The questions the overall score runs over: `range(1, 31)`. */
  const AllItems: seq<int> := Range(1, QuestionCount + 1)

  /** A new response: every answer at its default of 0. */
  function DefaultResponse(phase: Phase): (r: Response)
    ensures WellFormed(r) && r.phase == phase
    ensures forall q :: IsQuestion(q) ==> r.answers[q - 1] == 0
  {
    Response(phase, seq(QuestionCount, k => 0))
  }

  function Abs(x: int): int {
    if x < 0 then -x else x
  }

  /** The raw answer at the positive end of a question with this polarity. */
  function PositivePole(leftPositive: bool): int {
    if leftPositive then 3 else -3
  }

  /** The raw answer at the negative end of a question with this polarity. */
  function NegativePole(leftPositive: bool): int {
    if leftPositive then -3 else 3
  }

  /**
   * The conditional of `get_score` as written: it accepts any stored integer,
   * and nothing on the way in limits the stored answers to -3..3.
   */
  function RawItemScore(value: int, leftPositive: bool): (s: int)
    ensures 1 <= s <= 7 <==> IsAnswer(value)
  {
    if leftPositive then 4 + value else 4 - value
  }

  /**
   * The per-item transform on the answers the form offers: the answer moved onto
   * 1..7 so that 7 is always the positive pole. The score is one more than the
   * number of steps the answer lies from the negative pole, and seven less the
   * steps from the positive one.
   */
  function ItemScore(value: int, leftPositive: bool): (s: int)
    requires IsAnswer(value)
    ensures 1 <= s <= 7
    ensures s == 1 + Abs(value - NegativePole(leftPositive))
    ensures s == 7 - Abs(value - PositivePole(leftPositive))
  {
    RawItemScore(value, leftPositive)
  }

  /** As written, an answer outside -3..3 is scored outside 1..7. */
  lemma RawItemScoreLeavesScale(value: int, leftPositive: bool)
    requires !IsAnswer(value)
    ensures RawItemScore(value, leftPositive) < 1 || RawItemScore(value, leftPositive) > 7
  {
  }

  /** As written, a stored 9 on a left-positive question scores 13. */
  lemma StoredNineScoresThirteen()
    ensures RawItemScore(9, true) == 13
  {
  }

  /**
   * The range check the survey form evidently means to make: a response is
   * accepted exactly when it has thirty answers and the transform as written
   * keeps every one of them on the 1..7 scale; otherwise there is no response.
   */
  function ValidateResponse(phase: Phase, answers: seq<int>): (r: Option<Response>)
    ensures r.Some? <==>
      && |answers| == QuestionCount
      && forall q :: IsQuestion(q) ==> 1 <= RawItemScore(answers[q - 1], Polarities[q - 1]) <= 7
    ensures r.Some? ==> WellFormed(r.value) && r.value == Response(phase, answers)
  {
    if |answers| == QuestionCount && forall k :: 0 <= k < |answers| ==> IsAnswer(answers[k])
    then Some(Response(phase, answers))
    else
      OffScaleAnswerRejected(answers);
      None
  }

  /**
   * Thirty answers with one outside -3..3 put some question's as-written score
   * off the 1..7 scale.
   */
  lemma OffScaleAnswerRejected(answers: seq<int>)
    ensures (|answers| == QuestionCount && !(forall k :: 0 <= k < |answers| ==> IsAnswer(answers[k])))
      ==> exists q :: IsQuestion(q) && !(1 <= RawItemScore(answers[q - 1], Polarities[q - 1]) <= 7)
  {
    if |answers| == QuestionCount && !(forall k :: 0 <= k < |answers| ==> IsAnswer(answers[k])) {
      var k :| 0 <= k < |answers| && !IsAnswer(answers[k]);
      RawItemScoreLeavesScale(answers[k], Polarities[k]);
      assert IsQuestion(k + 1);
    }
  }

  /**
   * On every response the range check accepts, each question's score is the
   * as-written transform of its answer and lies in 1..7, and all four scores
   * lie in [1, 7].
   */
  lemma ValidatedScoresInScale(phase: Phase, answers: seq<int>)
    requires ValidateResponse(phase, answers).Some?
    ensures var r := ValidateResponse(phase, answers).value;
      forall q :: IsQuestion(q) ==>
        && GetScore(r, q) == RawItemScore(answers[q - 1], Polarities[q - 1])
        && 1 <= GetScore(r, q) <= 7
    ensures var r := ValidateResponse(phase, answers).value;
      && 1.0 <= WellbeingScore(r) <= 7.0 && 1.0 <= ActivityScore(r) <= 7.0
      && 1.0 <= MoodScore(r) <= 7.0 && 1.0 <= OverallScore(r) <= 7.0
  {
  }

  /** `get_score`: the item score of question q, looked up with its polarity. */
  function GetScore(r: Response, q: int): (s: int)
    requires WellFormed(r) && IsQuestion(q)
    ensures 1 <= s <= 7
    ensures s == 1 + Abs(r.answers[q - 1] - NegativePole(Polarities[q - 1]))
  {
    ItemScore(r.answers[q - 1], Polarities[q - 1])
  }

  /** `sum` of the item scores of the listed questions. */
  function SumScores(r: Response, items: seq<int>): (total: int)
    requires WellFormed(r) && AreQuestions(items)
    ensures |items| <= total <= 7 * |items|
  {
    if items == [] then 0 else GetScore(r, items[0]) + SumScores(r, items[1..])
  }

  /** The mean item score of a non-empty list of questions. */
  function GroupMean(r: Response, items: seq<int>): (m: real)
    requires WellFormed(r) && AreQuestions(items) && |items| > 0
    ensures 1.0 <= m <= 7.0
  {
    var total, n := SumScores(r, items) as real, |items| as real;
    MeanWithinBounds(total, n);
    total / n
  }

  /** A total between n and 7n, divided by n, lies between 1 and 7. */
  lemma MeanWithinBounds(total: real, n: real)
    requires n > 0.0 && n <= total <= 7.0 * n
    ensures 1.0 <= total / n <= 7.0
  {
  }

  /** `wellbeing_score`: the mean over the ten well-being questions. */
  function WellbeingScore(r: Response): (m: real)
    requires WellFormed(r)
    ensures 1.0 <= m <= 7.0
    ensures m == SumScores(r, WellbeingItems) as real / 10.0
  {
    GroupMean(r, WellbeingItems)
  }

  /** `activity_score`: the mean over the ten activity questions. */
  function ActivityScore(r: Response): (m: real)
    requires WellFormed(r)
    ensures 1.0 <= m <= 7.0
    ensures m == SumScores(r, ActivityItems) as real / 10.0
  {
    GroupMean(r, ActivityItems)
  }

  /** `mood_score`: the mean over the ten mood questions. */
  function MoodScore(r: Response): (m: real)
    requires WellFormed(r)
    ensures 1.0 <= m <= 7.0
    ensures m == SumScores(r, MoodItems) as real / 10.0
  {
    GroupMean(r, MoodItems)
  }

  /** `overall_score`: the mean over all thirty questions. */
  function OverallScore(r: Response): (m: real)
    requires WellFormed(r)
    ensures 1.0 <= m <= 7.0
    ensures m == SumScores(r, AllItems) as real / 30.0
  {
    GroupMean(r, AllItems)
  }

  // ---------------------------------------------------------------------------
  // The per-item transform

  /** The four ends of the scale. */
  lemma ItemScoreCorners()
    ensures ItemScore(3, true) == 7 && ItemScore(-3, true) == 1
    ensures ItemScore(3, false) == 1 && ItemScore(-3, false) == 7
  {
  }

  /** Each end of the score is reached at one pole only. */
  lemma ItemScoreExtremes(value: int, leftPositive: bool)
    requires IsAnswer(value)
    ensures ItemScore(value, leftPositive) == 7 <==> value == PositivePole(leftPositive)
    ensures ItemScore(value, leftPositive) == 1 <==> value == NegativePole(leftPositive)
  {
  }

  /** Reversing a question's polarity mirrors its score about 4. */
  lemma ItemScoreFlip(value: int, leftPositive: bool)
    requires IsAnswer(value)
    ensures ItemScore(value, leftPositive) + ItemScore(value, !leftPositive) == 8
  {
  }

  /** A higher answer scores higher on a left-positive question and lower otherwise. */
  lemma ItemScoreMonotone(v: int, w: int, leftPositive: bool)
    requires IsAnswer(v) && IsAnswer(w) && v < w
    ensures leftPositive ==> ItemScore(v, leftPositive) < ItemScore(w, leftPositive)
    ensures !leftPositive ==> ItemScore(v, leftPositive) > ItemScore(w, leftPositive)
  {
  }

  // ---------------------------------------------------------------------------
  // The constant tables

  /** The polarity table has one entry per question, so every lookup is in range. */
  lemma PolaritiesCoverQuestions()
    ensures |Polarities| == QuestionCount
    ensures forall q :: IsQuestion(q) ==> 0 <= q - 1 < |Polarities|
  {
  }

  /** Each group names ten distinct questions. */
  lemma GroupsAreTenQuestions()
    ensures |WellbeingItems| == 10 && |ActivityItems| == 10 && |MoodItems| == 10
    ensures Distinct(WellbeingItems) && Distinct(ActivityItems) && Distinct(MoodItems)
    ensures AreQuestions(WellbeingItems) && AreQuestions(ActivityItems) && AreQuestions(MoodItems)
  {
  }

  /** No question belongs to two groups. */
  lemma GroupsDisjoint()
    ensures forall q :: q in WellbeingItems ==> q !in ActivityItems && q !in MoodItems
    ensures forall q :: q in ActivityItems ==> q !in MoodItems
  {
  }

  /** Every question belongs to some group. */
  lemma GroupsCover()
    ensures forall q :: IsQuestion(q) <==> q in WellbeingItems || q in ActivityItems || q in MoodItems
  {
  }

  /** `range(1, 31)` lists every question exactly once, in order. */
  lemma AllItemsAreTheQuestions()
    ensures |AllItems| == QuestionCount && Distinct(AllItems) && AreQuestions(AllItems)
    ensures forall k :: 0 <= k < |AllItems| ==> AllItems[k] == k + 1
    ensures forall q :: q in AllItems <==> IsQuestion(q)
  {
    forall q | IsQuestion(q) ensures q in AllItems {
      assert AllItems[q - 1] == q;
    }
  }

  /** Joining two lists without repetitions and without common elements repeats nothing. */
  lemma DistinctAppend(a: seq<int>, b: seq<int>)
    requires Distinct(a) && Distinct(b)
    requires forall x :: x in a ==> x !in b
    ensures Distinct(a + b)
  {
    forall i, j | 0 <= i < j < |a + b| ensures (a + b)[i] != (a + b)[j] {
      if j < |a| {
        assert (a + b)[i] == a[i] && (a + b)[j] == a[j];
      } else if i < |a| {
        assert (a + b)[i] == a[i] && (a + b)[j] == b[j - |a|];
        assert b[j - |a|] in b;
      } else {
        assert (a + b)[i] == b[i - |a|] && (a + b)[j] == b[j - |a|];
      }
    }
  }

  /** In a list without repetitions every element occurs once. */
  lemma {:induction false} DistinctOccursOnce(s: seq<int>, x: int)
    requires Distinct(s)
    ensures multiset(s)[x] == if x in s then 1 else 0
  {
    if s != [] {
      assert s == [s[0]] + s[1..];
      assert Distinct(s[1..]);
      DistinctOccursOnce(s[1..], x);
      assert s[0] !in s[1..];
    }
  }

  /** Two lists without repetitions that hold the same elements are reorderings of each other. */
  lemma SameElementsPermute(a: seq<int>, b: seq<int>)
    requires Distinct(a) && Distinct(b)
    requires forall x :: x in a <==> x in b
    ensures multiset(a) == multiset(b)
  {
    forall x ensures multiset(a)[x] == multiset(b)[x] {
      DistinctOccursOnce(a, x);
      DistinctOccursOnce(b, x);
    }
  }

  /** The three groups, one after another, name each question exactly once. */
  lemma ConcatenatedGroupsAreTheQuestions()
    ensures Distinct(WellbeingItems + ActivityItems + MoodItems)
    ensures forall q :: q in WellbeingItems + ActivityItems + MoodItems <==> IsQuestion(q)
  {
    var w, a, m := WellbeingItems, ActivityItems, MoodItems;
    GroupsAreTenQuestions();
    GroupsDisjoint();
    GroupsCover();
    DistinctAppend(w, a);
    DistinctAppend(w + a, m);
  }

  // ---------------------------------------------------------------------------
  // Sums of item scores

  lemma {:induction false} SumScoresAppend(r: Response, a: seq<int>, b: seq<int>)
    requires WellFormed(r) && AreQuestions(a) && AreQuestions(b)
    ensures AreQuestions(a + b)
    ensures SumScores(r, a + b) == SumScores(r, a) + SumScores(r, b)
  {
    if a != [] {
      assert (a + b)[0] == a[0];
      assert (a + b)[1..] == a[1..] + b;
      SumScoresAppend(r, a[1..], b);
    } else {
      assert a + b == b;
    }
  }

  /** Taking one question out of the list takes its score out of the sum. */
  lemma SumScoresRemove(r: Response, b: seq<int>, k: nat)
    requires WellFormed(r) && AreQuestions(b) && k < |b|
    ensures AreQuestions(b[..k] + b[k + 1..])
    ensures SumScores(r, b) == GetScore(r, b[k]) + SumScores(r, b[..k] + b[k + 1..])
  {
    assert b == b[..k] + ([b[k]] + b[k + 1..]);
    SumScoresAppend(r, b[..k], [b[k]] + b[k + 1..]);
    assert ([b[k]] + b[k + 1..])[1..] == b[k + 1..];
    SumScoresAppend(r, b[..k], b[k + 1..]);
  }

  /** Removing the element at k from a list removes one occurrence from its multiset. */
  lemma MultisetRemove(b: seq<int>, k: nat)
    requires k < |b|
    ensures multiset(b[..k] + b[k + 1..]) == multiset(b) - multiset{b[k]}
  {
    assert b == b[..k] + [b[k]] + b[k + 1..];
  }

  lemma AreQuestionsAppend(a: seq<int>, b: seq<int>)
    ensures AreQuestions(a + b) <==> AreQuestions(a) && AreQuestions(b)
  {
    if AreQuestions(a + b) {
      forall i | 0 <= i < |a| ensures IsQuestion(a[i]) {
        assert a[i] == (a + b)[i];
      }
      forall i | 0 <= i < |b| ensures IsQuestion(b[i]) {
        assert b[i] == (a + b)[|a| + i];
      }
    }
  }

  /** The sum does not depend on the order in which questions are listed. */
  lemma {:induction false} SumScoresPermutation(r: Response, a: seq<int>, b: seq<int>)
    requires WellFormed(r) && AreQuestions(a) && AreQuestions(b)
    requires multiset(a) == multiset(b)
    ensures SumScores(r, a) == SumScores(r, b)
    decreases |a|
  {
    if a == [] {
      assert b == [] by {
        assert |b| == |multiset(b)|;
      }
    } else {
      var x := a[0];
      assert x in multiset(b);
      var k :| 0 <= k < |b| && b[k] == x;
      var rest := b[..k] + b[k + 1..];
      MultisetRemove(b, k);
      MultisetRemove(a, 0);
      assert a[..0] + a[1..] == a[1..];
      SumScoresRemove(r, b, k);
      SumScoresPermutation(r, a[1..], rest);
    }
  }

  /** Questions that all score c sum to c times their number. */
  lemma {:induction false} SumScoresConstant(r: Response, items: seq<int>, c: int)
    requires WellFormed(r) && AreQuestions(items)
    requires forall i :: 0 <= i < |items| ==> GetScore(r, items[i]) == c
    ensures SumScores(r, items) == c * |items|
  {
    if items != [] {
      var tail := items[1..];
      assert AreQuestions(tail) && forall i :: 0 <= i < |tail| ==> GetScore(r, tail[i]) == c by {
        assert forall i :: 0 <= i < |tail| ==> tail[i] == items[i + 1];
      }
      SumScoresConstant(r, tail, c);
      assert c * (|tail| + 1) == c * |tail| + c;
    }
  }

  /** The sum reaches its top exactly when every listed question scores 7. */
  lemma {:induction false} SumScoresAtTop(r: Response, items: seq<int>)
    requires WellFormed(r) && AreQuestions(items)
    ensures SumScores(r, items) == 7 * |items| <==>
            forall i :: 0 <= i < |items| ==> GetScore(r, items[i]) == 7
  {
    if items != [] {
      SumScoresAtTop(r, items[1..]);
      if forall i :: 0 <= i < |items| - 1 ==> GetScore(r, items[1..][i]) == 7 {
        assert forall i :: 1 <= i < |items| ==> GetScore(r, items[i]) == 7 by {
          forall i | 1 <= i < |items| ensures GetScore(r, items[i]) == 7 {
            assert items[i] == items[1..][i - 1];
          }
        }
      }
    }
  }

  /** The sum reaches its bottom exactly when every listed question scores 1. */
  lemma {:induction false} SumScoresAtBottom(r: Response, items: seq<int>)
    requires WellFormed(r) && AreQuestions(items)
    ensures SumScores(r, items) == |items| <==>
            forall i :: 0 <= i < |items| ==> GetScore(r, items[i]) == 1
  {
    if items != [] {
      SumScoresAtBottom(r, items[1..]);
      if forall i :: 0 <= i < |items| - 1 ==> GetScore(r, items[1..][i]) == 1 {
        assert forall i :: 1 <= i < |items| ==> GetScore(r, items[i]) == 1 by {
          forall i | 1 <= i < |items| ensures GetScore(r, items[i]) == 1 {
            assert items[i] == items[1..][i - 1];
          }
        }
      }
    }
  }

  // ---------------------------------------------------------------------------
  // The composite scores

  /**
   * Because the groups split the thirty questions into three sets of ten, the
   * overall score is the mean of the three composite scores.
   */
  lemma OverallIsMeanOfComposites(r: Response)
    requires WellFormed(r)
    ensures OverallScore(r) == (WellbeingScore(r) + ActivityScore(r) + MoodScore(r)) / 3.0
  {
    ConcatenatedGroupsAreTheQuestions();
    AllItemsAreTheQuestions();
    SumOverPartition(r, WellbeingItems, ActivityItems, MoodItems, AllItems);
  }

  /**
   * Summing over three lists that together name the same questions as a
   * fourth, each once, gives the fourth's sum.
   */
  lemma SumOverPartition(r: Response, a: seq<int>, b: seq<int>, c: seq<int>, all: seq<int>)
    requires WellFormed(r) && AreQuestions(all)
    requires Distinct(a + b + c) && Distinct(all)
    requires forall q :: q in a + b + c <==> q in all
    ensures AreQuestions(a) && AreQuestions(b) && AreQuestions(c)
    ensures SumScores(r, all) == SumScores(r, a) + SumScores(r, b) + SumScores(r, c)
  {
    var abc := a + b + c;
    assert AreQuestions(abc) by {
      forall i | 0 <= i < |abc| ensures IsQuestion(abc[i]) {
        assert abc[i] in all;
      }
    }
    AreQuestionsAppend(a + b, c);
    AreQuestionsAppend(a, b);
    SameElementsPermute(a + b + c, all);
    SumScoresAppend(r, a, b);
    SumScoresAppend(r, a + b, c);
    SumScoresPermutation(r, a + b + c, all);
  }

  /** A mean equals c exactly when the total is c times the count. */
  lemma MeanEquals(total: int, n: int, c: int)
    requires n > 0
    ensures total as real / n as real == c as real <==> total == c * n
  {
    if total as real / n as real == c as real {
      assert total as real == c as real * n as real;
    }
  }

  /** A group's mean is 7 exactly when each of its questions is answered at the positive pole. */
  lemma {:induction false} GroupMeanAtTop(r: Response, items: seq<int>)
    requires WellFormed(r) && AreQuestions(items) && |items| > 0
    ensures GroupMean(r, items) == 7.0 <==>
            forall i :: 0 <= i < |items| ==>
              r.answers[items[i] - 1] == PositivePole(Polarities[items[i] - 1])
  {
    SumScoresAtTop(r, items);
    MeanEquals(SumScores(r, items), |items|, 7);
    forall i | 0 <= i < |items|
      ensures GetScore(r, items[i]) == 7 <==>
              r.answers[items[i] - 1] == PositivePole(Polarities[items[i] - 1])
    {
      ItemScoreExtremes(r.answers[items[i] - 1], Polarities[items[i] - 1]);
    }
  }

  /** A group's mean is 1 exactly when each of its questions is answered at the negative pole. */
  lemma {:induction false} GroupMeanAtBottom(r: Response, items: seq<int>)
    requires WellFormed(r) && AreQuestions(items) && |items| > 0
    ensures GroupMean(r, items) == 1.0 <==>
            forall i :: 0 <= i < |items| ==>
              r.answers[items[i] - 1] == NegativePole(Polarities[items[i] - 1])
  {
    SumScoresAtBottom(r, items);
    MeanEquals(SumScores(r, items), |items|, 1);
    forall i | 0 <= i < |items|
      ensures GetScore(r, items[i]) == 1 <==>
              r.answers[items[i] - 1] == NegativePole(Polarities[items[i] - 1])
    {
      ItemScoreExtremes(r.answers[items[i] - 1], Polarities[items[i] - 1]);
    }
  }

  /** With every answer at its default of 0, all four scores are exactly 4. */
  lemma DefaultScoresAreFour(phase: Phase)
    ensures WellbeingScore(DefaultResponse(phase)) == 4.0
    ensures ActivityScore(DefaultResponse(phase)) == 4.0
    ensures MoodScore(DefaultResponse(phase)) == 4.0
    ensures OverallScore(DefaultResponse(phase)) == 4.0
  {
    var r := DefaultResponse(phase);
    GroupsAreTenQuestions();
    GroupsDisjoint();
    GroupsCover();
    AllItemsAreTheQuestions();
    SumScoresConstant(r, WellbeingItems, 4);
    SumScoresConstant(r, ActivityItems, 4);
    SumScoresConstant(r, MoodItems, 4);
    SumScoresConstant(r, AllItems, 4);
  }

  /** Answering every question at its positive pole gives 7 on all four scores. */
  lemma PositivePoleScoresSeven(r: Response)
    requires WellFormed(r)
    requires forall q :: IsQuestion(q) ==> r.answers[q - 1] == PositivePole(Polarities[q - 1])
    ensures WellbeingScore(r) == 7.0 && ActivityScore(r) == 7.0
    ensures MoodScore(r) == 7.0 && OverallScore(r) == 7.0
  {
    GroupsAreTenQuestions();
    GroupsDisjoint();
    GroupsCover();
    AllItemsAreTheQuestions();
    assert forall q :: IsQuestion(q) ==> GetScore(r, q) == 7;
    SumScoresConstant(r, WellbeingItems, 7);
    SumScoresConstant(r, ActivityItems, 7);
    SumScoresConstant(r, MoodItems, 7);
    SumScoresConstant(r, AllItems, 7);
  }
}
