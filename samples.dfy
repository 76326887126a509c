/** Concrete scenarios over records of the dataset in grades.py (entries
    "9243" and "0000") and over small made-up sections. */
module Samples {
  import opened Rounding
  import opened Scorer
  import opened Ranking

  const Record9243: Record := [58, 10, 47, 10, 10, 10, 10, 10]
  const Record0000: Record := [56, 10, 52, 10, 10, 0, 10, 10]

  /** Student "9243": exact total 6308/110 = 57.3454..., shown as 57.35. */
  lemma Score9243()
    ensures ExactTotal(Record9243) == 6308.0 / 110.0
    ensures CalcScore(Record9243) == 57.35
  {
    assert Record9243[3..8] == [10, 10, 10, 10, 10];
    assert (6308.0 / 110.0 * 100.0).Floor == 5734;
  }

  /** Student "0000": exact total 6028/110 = 54.8, already two decimals. */
  lemma Score0000()
    ensures ExactTotal(Record0000) == 54.8
    ensures CalcScore(Record0000) == 54.8
  {
    assert Record0000[3..8] == [10, 10, 0, 10, 10];
    Round2OfHundredths(5480);
  }

  /** A section holding "9243", "0000" and a record of the wrong length. */
  const MixedSection: Section := map["9243" := Record9243, "0000" := Record0000, "bad" := [58, 10, 47]]

  /** A section where "9244" ties with "9243" by a different record. */
  const TiedSection: Section := map["9243" := Record9243, "9244" := [58, 10, 47, 0, 10, 10, 10, 20], "0000" := Record0000]

  lemma MixedTotals()
    ensures Totals(MixedSection) == map["9243" := 57.35, "0000" := 54.8, "bad" := 0.0]
  {
    Score9243();
    Score0000();
  }

  /** Three students with strictly decreasing totals rank 1, 2 and 3. */
  lemma RanksOfThreeDistinct(totals: map<string, real>, a: string, b: string, c: string)
    requires a != b && b != c && a != c
    requires totals.Keys == {a, b, c}
    requires totals[a] > totals[b] > totals[c]
    ensures RankOf(totals, a) == 1 && RankOf(totals, b) == 2 && RankOf(totals, c) == 3
  {
    assert Above(totals, totals[a]) == {};
    assert Above(totals, totals[b]) == {a};
    assert Above(totals, totals[c]) == {a, b};
  }

  /** Two tied leaders both rank 1, and the third student ranks 3, not 2. */
  lemma RanksOfThreeTied(totals: map<string, real>, a: string, b: string, c: string)
    requires a != b && b != c && a != c
    requires totals.Keys == {a, b, c}
    requires totals[a] == totals[b] > totals[c]
    ensures RankOf(totals, a) == 1 && RankOf(totals, b) == 1 && RankOf(totals, c) == 3
  {
    assert Above(totals, totals[a]) == {};
    assert Above(totals, totals[c]) == {a, b};
  }

  /** A record of the wrong length scores 0 and still takes part in ranking;
      an unknown id is reported as -1. */
  lemma RanksWithMalformedRecord()
    ensures StudentRank(MixedSection, "9243") == 1
    ensures StudentRank(MixedSection, "0000") == 2
    ensures StudentRank(MixedSection, "bad") == 3
    ensures StudentRank(MixedSection, "9999") == -1
  {
    MixedTotals();
    RanksOfThreeDistinct(Totals(MixedSection), "9243", "0000", "bad");
  }

  lemma TiedTotals()
    ensures Totals(TiedSection) == map["9243" := 57.35, "9244" := 57.35, "0000" := 54.8]
  {
    var tied := TiedSection["9244"];
    Score9243();
    Score0000();
    assert tied[3..8] == [0, 10, 10, 10, 20];
    assert ExactTotal(tied) == ExactTotal(Record9243);
  }

  /** Two students with equal totals share rank 1; the next one is third. */
  lemma TiedStudentsShareRank()
    ensures StudentRank(TiedSection, "9243") == 1
    ensures StudentRank(TiedSection, "9244") == 1
    ensures StudentRank(TiedSection, "0000") == 3
  {
    TiedTotals();
    RanksOfThreeTied(Totals(TiedSection), "9243", "9244", "0000");
  }
}
