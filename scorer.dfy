/** The score calculator of grades.py: `calc_score` and the positional
    breakdown `get_student_data_dict` that the view shows.

    A raw record is `[mid, mid_extra, final, ex1, ex2, ex3, ex4, ex5]`; the
    weighted total is `mid*3/11 + mid_extra*3/11 + final*4/10 + sum(ex)*2/5`,
    computed here exactly on reals and rounded once to two decimals. */
module Scorer {
  import opened Rounding

  /** A raw score record as stored in the dataset, of any length. */
  type Record = seq<int>

  /** The number of components of a well-formed record. */
  const RecordLength: nat := 8

  /** Python's `sum` over a list of integers; a sum of non-negative scores
      is non-negative. */
  function Sum(s: seq<int>): (total: int)
    ensures (forall i :: 0 <= i < |s| ==> s[i] >= 0) ==> total >= 0
  {
    if s == [] then 0
    else
      assert forall i :: 0 <= i < |s| - 1 ==> s[1..][i] == s[i + 1];
      s[0] + Sum(s[1..])
  }

  /** Raising one element by 1 raises the sum by exactly 1. */
  lemma {:induction false} SumIncrement(s: seq<int>, i: nat)
    requires i < |s|
    ensures Sum(s[i := s[i] + 1]) == Sum(s) + 1
  {
    if i > 0 {
      SumIncrement(s[1..], i - 1);
      assert s[i := s[i] + 1][1..] == s[1..][i - 1 := s[i] + 1];
    }
  }

  /** The weighted total of a well-formed record before rounding, evaluated
      term by term as the source writes it. Multiplied by 110 it is the
      integer `30*mid + 30*mid_extra + 44*final + 44*sum(ex)`. */
  function ExactTotal(rec: Record): (t: real)
    requires |rec| == RecordLength
    ensures 110.0 * t == (30 * rec[0] + 30 * rec[1] + 44 * rec[2] + 44 * Sum(rec[3..8])) as real
  {
    var mid, midExtra, final, exercises := rec[0], rec[1], rec[2], rec[3..8];
    (mid as real) * 3.0 / 11.0
    + (midExtra as real) * 3.0 / 11.0
    + (final as real) * 4.0 / 10.0
    + (Sum(exercises) as real) * 2.0 / 5.0
  }

  /** `calc_score`: the weighted total rounded to two decimals, or `0.0` for a
      record whose length is not 8 (the record is neither truncated nor
      padded). */
  function CalcScore(rec: Record): (score: real)
    ensures |rec| != RecordLength ==> score == 0.0
    ensures |rec| == RecordLength ==> ExactTotal(rec) - 0.005 < score < ExactTotal(rec) + 0.005
    ensures (score * 100.0).Floor as real == score * 100.0
  {
    if |rec| != RecordLength then 0.0
    else
      NoHalfHundredthTotal(rec);
      Round2(ExactTotal(rec))
  }

  /** No well-formed record has an exact total that lies on a half-hundredth:
      `100 * total = 10 * N / 11` for an integer `N`, and `20 * N = 22 * m + 11`
      has no integer solution. So the rounding of a total never meets a tie,
      and the score is the one two-decimal value strictly within 0.005. */
  lemma NoHalfHundredthTotal(rec: Record)
    requires |rec| == RecordLength
    ensures ExactTotal(rec) * 100.0 - (ExactTotal(rec) * 100.0).Floor as real != 0.5
  {
    var n := 30 * rec[0] + 30 * rec[1] + 44 * rec[2] + 44 * Sum(rec[3..8]);
    var y := ExactTotal(rec) * 100.0;
    var m := y.Floor;
    assert y * 11.0 == 10.0 * n as real;
    assert (20 * n) % 2 == 0 && (22 * m + 11) % 2 == 1;
    assert (20 * n) as real != (22 * m + 11) as real;
  }

  /** Raising any one exercise score by 1 raises the unrounded total by exactly
      2/5, and the rounded total by exactly 0.4. */
  lemma ExerciseIncrement(rec: Record, k: nat)
    requires |rec| == RecordLength && 3 <= k < 8
    ensures ExactTotal(rec[k := rec[k] + 1]) == ExactTotal(rec) + 0.4
    ensures CalcScore(rec[k := rec[k] + 1]) == CalcScore(rec) + 0.4
  {
    var rec' := rec[k := rec[k] + 1];
    assert rec'[3..8] == rec[3..8][k - 3 := rec[k] + 1];
    SumIncrement(rec[3..8], k - 3);
    Round2AddFortyHundredths(ExactTotal(rec));
  }

  /** A record with non-negative components has a non-negative total. */
  lemma NonNegativeTotal(rec: Record)
    requires |rec| == RecordLength
    requires forall i :: 0 <= i < |rec| ==> rec[i] >= 0
    ensures ExactTotal(rec) >= 0.0
    ensures CalcScore(rec) >= 0.0
  {
    Round2NonNegative(ExactTotal(rec));
  }

  /** A record with a larger exact total never gets a smaller rounded score:
      rounding may merge two totals but not swap them. */
  lemma CalcScoreMonotone(a: Record, b: Record)
    requires |a| == RecordLength && |b| == RecordLength
    requires ExactTotal(a) <= ExactTotal(b)
    ensures CalcScore(a) <= CalcScore(b)
  {
    Round2Monotone(ExactTotal(a), ExactTotal(b));
  }

  /** The breakdown of a record that `get_student_data_dict` returns. */
  datatype StudentData = StudentData(mid: int, midExtra: int, final: int, exercises: seq<int>)

  function Min(a: int, b: int): (m: int)
    ensures m <= a && m <= b && (m == a || m == b)
  {
    if a <= b then a else b
  }

  /** `get_student_data_dict`: positional destructuring of a record. Indexing
      the first three components fails in the source for a record shorter
      than 3, which no caller handles; the exercise slice `[3:8]` is clamped
      to the record's length as Python slicing is. */
  function GetStudentDataDict(s: Record): (d: StudentData)
    requires |s| >= 3
    ensures d.mid == s[0] && d.midExtra == s[1] && d.final == s[2]
    ensures |d.exercises| == Min(|s|, 8) - 3 <= 5
    ensures s[..3] + d.exercises == s[..Min(|s|, 8)]
    ensures |s| == RecordLength ==> [d.mid, d.midExtra, d.final] + d.exercises == s
  {
    StudentData(s[0], s[1], s[2], s[3..Min(|s|, 8)])
  }

  /** The breakdown the view shows agrees with the score: the components it
      names, weighted, give the record's exact total. */
  lemma BreakdownAgreesWithTotal(s: Record)
    requires |s| == RecordLength
    ensures var d := GetStudentDataDict(s);
      110.0 * ExactTotal(s) == (30 * d.mid + 30 * d.midExtra + 44 * d.final + 44 * Sum(d.exercises)) as real
  {
  }
}
