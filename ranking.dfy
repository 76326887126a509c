/** The bulk scorer and the ranker of grades.py: `get_all_scores` and
    `get_student_rank`.

    A section is whichever map from student id to raw record is passed in.
    The rank of a student is one more than the number of students of the
    section whose total is strictly greater; an unknown id has rank -1. The
    ranking laws are stated over any map of totals, so they hold whatever
    rounding produced the totals. */
module Ranking {
  import opened Scorer

  /** A section of the dataset: student id to raw record. */
  type Section = map<string, Record>

  /** What `get_all_scores` returns: every id of the section with its score. */
  function Totals(section: Section): (totals: map<string, real>)
    ensures totals.Keys == section.Keys && |totals| == |section|
    ensures forall id :: id in section ==> totals[id] == CalcScore(section[id])
  {
    map id | id in section :: CalcScore(section[id])
  }

  /** `get_all_scores`: builds the map of totals one key at a time. The keys
      are taken in an arbitrary order; the result does not depend on it. */
  method GetAllScores(section: Section) returns (scores: map<string, real>)
    ensures scores.Keys == section.Keys
    ensures forall id :: id in section ==> scores[id] == CalcScore(section[id])
    ensures scores == Totals(section)
  {
    scores := map[];
    var pending := section.Keys;
    while pending != {}
      invariant pending <= section.Keys
      invariant scores.Keys == section.Keys - pending
      invariant forall id :: id in scores ==> scores[id] == CalcScore(section[id])
      decreases pending
    {
      var id :| id in pending;
      scores := scores[id := CalcScore(section[id])];
      pending := pending - {id};
    }
  }

  /** The students of a section whose total is strictly greater than `t`. */
  function Above(totals: map<string, real>, t: real): (above: set<string>)
    ensures forall id :: id in above <==> id in totals && totals[id] > t
    ensures |above| <= |totals|
  {
    var above := set id | id in totals && totals[id] > t;
    SubsetCard(above, totals.Keys);
    above
  }

  lemma SubsetCard<T>(a: set<T>, b: set<T>)
    requires a <= b
    ensures |a| <= |b|
    ensures a != b ==> |a| < |b|
  {
    assert b == a + (b - a);
    if a != b {
      var x :| x in b - a;
    }
  }

  /** A student's rank among `totals`: -1 when absent, otherwise one more than
      the number of strictly greater totals. */
  function RankOf(totals: map<string, real>, id: string): (rank: int)
    ensures rank == -1 <==> id !in totals
    ensures id in totals ==> 1 <= rank <= |totals|
  {
    if id !in totals then -1
    else
      var above := Above(totals, totals[id]);
      SubsetCard(above, totals.Keys - {id});
      |above| + 1
  }

  /** `get_student_rank`: the rank of `id` among the totals of its section. */
  function StudentRank(section: Section, id: string): (rank: int)
    ensures rank == -1 <==> id !in section
    ensures id in section ==> 1 <= rank <= |section|
  {
    var totals := Totals(section);
    assert totals.Keys == section.Keys;
    RankOf(totals, id)
  }

  /** A lower or equal total never has fewer students above it. */
  lemma AboveAntitone(totals: map<string, real>, s: real, t: real)
    requires s <= t
    ensures Above(totals, t) <= Above(totals, s)
    ensures |Above(totals, t)| <= |Above(totals, s)|
  {
    SubsetCard(Above(totals, t), Above(totals, s));
  }

  /** Ties share a rank, and a strictly higher total is exactly what gives a
      strictly smaller (better) rank. */
  lemma RankOrder(totals: map<string, real>, a: string, b: string)
    requires a in totals && b in totals
    ensures RankOf(totals, a) == RankOf(totals, b) <==> totals[a] == totals[b]
    ensures RankOf(totals, a) < RankOf(totals, b) <==> totals[a] > totals[b]
  {
    if totals[a] > totals[b] {
      AboveAntitone(totals, totals[b], totals[a]);
      assert a in Above(totals, totals[b]) - Above(totals, totals[a]);
      SubsetCard(Above(totals, totals[a]), Above(totals, totals[b]));
    } else if totals[a] < totals[b] {
      AboveAntitone(totals, totals[a], totals[b]);
      assert b in Above(totals, totals[a]) - Above(totals, totals[b]);
      SubsetCard(Above(totals, totals[b]), Above(totals, totals[a]));
    }
  }

  /** Rank 1 goes exactly to the students holding the maximum total. */
  lemma RankOneIffMaximum(totals: map<string, real>, id: string)
    requires id in totals
    ensures RankOf(totals, id) == 1 <==> forall j :: j in totals ==> totals[j] <= totals[id]
  {
    if RankOf(totals, id) == 1 {
      assert Above(totals, totals[id]) == {};
      forall j | j in totals ensures totals[j] <= totals[id] {
        assert j !in Above(totals, totals[id]);
      }
    } else {
      var j :| j in Above(totals, totals[id]);
    }
  }

  /** Every non-empty section has a student holding the maximum total. */
  lemma {:induction false} MaximumExists(totals: map<string, real>) returns (best: string)
    requires |totals| > 0
    ensures best in totals
    ensures forall j :: j in totals ==> totals[j] <= totals[best]
    decreases |totals|
  {
    var k :| k in totals;
    var rest := totals - {k};
    if |rest| == 0 {
      assert totals.Keys == {k};
      best := k;
    } else {
      var b := MaximumExists(rest);
      best := if totals[k] > totals[b] then k else b;
      forall j | j in totals ensures totals[j] <= totals[best] {
        if j != k { assert j in rest; }
      }
    }
  }

  /** A non-empty section always has someone ranked first. */
  lemma SomeoneRanksFirst(totals: map<string, real>)
    requires |totals| > 0
    ensures exists id :: id in totals && RankOf(totals, id) == 1
  {
    var best := MaximumExists(totals);
    RankOneIffMaximum(totals, best);
  }

  /** The number of rank-1 students equals the number of students holding the
      maximum total `totals[best]`. */
  lemma RankOneCount(totals: map<string, real>, best: string)
    requires best in totals
    requires forall j :: j in totals ==> totals[j] <= totals[best]
    ensures |set j | j in totals && RankOf(totals, j) == 1| == |set j | j in totals && totals[j] == totals[best]|
  {
    forall j | j in totals ensures RankOf(totals, j) == 1 <==> totals[j] == totals[best] {
      RankOneIffMaximum(totals, j);
      RankOneIffMaximum(totals, best);
    }
    assert (set j | j in totals && RankOf(totals, j) == 1) == (set j | j in totals && totals[j] == totals[best]);
  }

  /** On the exact (unrounded) totals of two well-formed records, a student
      whose total is at least another's never ranks below them. */
  lemma ExactOrderKeepsRank(section: Section, a: string, b: string)
    requires a in section && b in section
    requires |section[a]| == RecordLength && |section[b]| == RecordLength
    requires ExactTotal(section[a]) >= ExactTotal(section[b])
    ensures StudentRank(section, a) <= StudentRank(section, b)
  {
    CalcScoreMonotone(section[b], section[a]);
    RankOrder(Totals(section), a, b);
  }

  // The counting generator of the source, over the values in iteration order.

  /** `sum(1 for score in values if score > t)`. */
  function CountGreater(values: seq<real>, t: real): (n: nat)
    ensures n <= |values|
    ensures n == 0 <==> forall i :: 0 <= i < |values| ==> values[i] <= t
    ensures n == |values| <==> forall i :: 0 <= i < |values| ==> values[i] > t
  {
    if values == [] then 0
    else (if values[0] > t then 1 else 0) + CountGreater(values[1..], t)
  }

  /** The totals listed in the order `order` names the ids. */
  function ValuesInOrder(totals: map<string, real>, order: seq<string>): (values: seq<real>)
    requires forall i :: 0 <= i < |order| ==> order[i] in totals
    ensures |values| == |order|
    ensures forall i :: 0 <= i < |order| ==> values[i] == totals[order[i]]
  {
    if order == [] then [] else [totals[order[0]]] + ValuesInOrder(totals, order[1..])
  }

  /** `order` lists every key of `totals` exactly once: an iteration order. */
  ghost predicate Enumerates(order: seq<string>, totals: map<string, real>)
  {
    && (forall i, j :: 0 <= i < j < |order| ==> order[i] != order[j])
    && (forall id :: id in totals <==> id in order)
  }

  /** Counting over the values in any iteration order gives the same number
      as counting the set of students above: the count, and hence the rank,
      does not depend on the order of the map. */
  lemma {:induction false} CountGreaterAnyOrder(totals: map<string, real>, order: seq<string>, t: real)
    requires Enumerates(order, totals)
    ensures forall i :: 0 <= i < |order| ==> order[i] in totals
    ensures CountGreater(ValuesInOrder(totals, order), t) == |Above(totals, t)|
    decreases |order|
  {
    if order == [] {
      assert totals.Keys == {};
    } else {
      CountGreaterStep(totals, order, t);
      CountGreaterAnyOrder(totals - {order[0]}, order[1..], t);
    }
  }

  /** One step of the count: the first id of the order, then the rest of the
      map in the rest of the order. */
  lemma CountGreaterStep(totals: map<string, real>, order: seq<string>, t: real)
    requires Enumerates(order, totals) && order != []
    ensures forall i :: 0 <= i < |order| ==> order[i] in totals
    ensures Enumerates(order[1..], totals - {order[0]})
    ensures forall i :: 0 <= i < |order| - 1 ==> order[1..][i] in totals - {order[0]}
    ensures CountGreater(ValuesInOrder(totals, order), t)
      == (if totals[order[0]] > t then 1 else 0) + CountGreater(ValuesInOrder(totals - {order[0]}, order[1..]), t)
    ensures |Above(totals, t)| == |Above(totals - {order[0]}, t)| + (if totals[order[0]] > t then 1 else 0)
  {
    var tail := ValuesStep(totals, order);
    CountGreaterCons(totals[order[0]], tail, t);
    AboveRemove(totals, order[0], t);
  }

  /** The values in `order` are the first id's total followed by the values
      of the rest of the map in the rest of the order. */
  lemma ValuesStep(totals: map<string, real>, order: seq<string>) returns (tail: seq<real>)
    requires Enumerates(order, totals) && order != []
    ensures forall i :: 0 <= i < |order| ==> order[i] in totals
    ensures Enumerates(order[1..], totals - {order[0]})
    ensures forall i :: 0 <= i < |order| - 1 ==> order[1..][i] in totals - {order[0]}
    ensures tail == ValuesInOrder(totals - {order[0]}, order[1..])
    ensures ValuesInOrder(totals, order) == [totals[order[0]]] + tail
  {
    EnumeratesTail(order, totals);
    ValuesRestrict(totals, totals - {order[0]}, order[1..]);
    tail := ValuesInOrder(totals - {order[0]}, order[1..]);
  }

  lemma CountGreaterCons(v: real, rest: seq<real>, t: real)
    ensures CountGreater([v] + rest, t) == (if v > t then 1 else 0) + CountGreater(rest, t)
  {
    assert ([v] + rest)[1..] == rest;
  }

  /** Dropping the first id of an iteration order enumerates the rest of the map. */
  lemma EnumeratesTail(order: seq<string>, totals: map<string, real>)
    requires Enumerates(order, totals) && order != []
    ensures Enumerates(order[1..], totals - {order[0]})
  {
    forall id | id in totals - {order[0]} ensures id in order[1..] {
      var i :| 0 <= i < |order| && order[i] == id;
    }
  }

  /** Removing one student removes at most that student from those above `t`. */
  lemma AboveRemove(totals: map<string, real>, k: string, t: real)
    requires k in totals
    ensures |Above(totals, t)| == |Above(totals - {k}, t)| + (if totals[k] > t then 1 else 0)
  {
    if totals[k] > t {
      assert Above(totals, t) == Above(totals - {k}, t) + {k};
    } else {
      assert Above(totals, t) == Above(totals - {k}, t);
    }
  }

  lemma {:induction false} ValuesRestrict(totals: map<string, real>, rest: map<string, real>, order: seq<string>)
    requires forall i :: 0 <= i < |order| ==> order[i] in rest
    requires forall id :: id in rest ==> id in totals && rest[id] == totals[id]
    ensures ValuesInOrder(totals, order) == ValuesInOrder(rest, order)
    decreases |order|
  {
    if order != [] {
      ValuesRestrict(totals, rest, order[1..]);
    }
  }

  /** The rank exactly as the source computes it, over one iteration order of
      the section's totals, equals `StudentRank` for every present id. */
  lemma GeneratorRank(section: Section, order: seq<string>, id: string)
    requires Enumerates(order, Totals(section))
    requires id in section
    ensures forall i :: 0 <= i < |order| ==> order[i] in Totals(section)
    ensures CountGreater(ValuesInOrder(Totals(section), order), Totals(section)[id]) + 1 == StudentRank(section, id)
  {
    CountGreaterAnyOrder(Totals(section), order, Totals(section)[id]);
  }
}
