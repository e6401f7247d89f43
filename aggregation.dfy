/**
 * The three queries of `getResults`, as pure functions of the rows of the
 * `scores` table, each proved equal to its reference definition in Entries:
 *  - item averages: `AVG(score)` grouped by (group_name, item_name);
 *  - group totals: `SUM(score)` grouped by (scorer_name, group_name), then
 *    `AVG` of those totals grouped by group_name, `ORDER BY ... DESC`;
 *  - scorer count: the number of rows of `SELECT DISTINCT scorer_name`.
 */
module Aggregation {
  import opened Entries
  import opened GroupBy

  /** A row of `itemAvgs`: group_name, item_name, average. */
  datatype ItemAvg = ItemAvg(group: string, item: string, average: real)

  /** A row of `groupTotals`: group_name, group_average. */
  datatype GroupAvg = GroupAvg(group: string, average: real)

  /** What `getResults` returns. */
  datatype Results = Results(itemAvgs: seq<ItemAvg>, groupTotals: seq<GroupAvg>, scorerCount: nat)

  /** `AVG` of a group: exact division of the sum by the (positive) count. */
  function Average<K>(b: Bucket<K>): real {
    b.sum as real / b.count as real
  }

  // ---------------------------------------------------------------------------
  // Item averages

  /** The scores table keyed by (group_name, item_name). */
  function ItemRows(s: seq<Entry>): (r: seq<((string, string), int)>)
    ensures |r| == |s|
  {
    if s == [] then [] else [((s[0].group, s[0].item), s[0].score)] + ItemRows(s[1..])
  }

  /**
   * `SELECT group_name, item_name, AVG(score) FROM scores GROUP BY group_name, item_name`:
   * at most one record per row, and none exactly when there are no rows
   * (what each record holds is `ItemAvgsCorrect`).
   */
  function ItemAvgs(s: seq<Entry>): (r: seq<ItemAvg>)
    ensures |r| <= |s|
    ensures r == [] <==> s == []
  {
    var bs := Aggregate(ItemRows(s));
    seq(|bs|, j requires 0 <= j < |bs| => ItemAvg(bs[j].key.0, bs[j].key.1, Average(bs[j])))
  }

  lemma {:induction false} ItemRowsMatch(s: seq<Entry>, group: string, item: string)
    ensures SumFor(ItemRows(s), (group, item)) == Sum(PairScores(s, group, item))
    ensures CountFor(ItemRows(s), (group, item)) == |PairScores(s, group, item)|
  {
    if s != [] {
      ItemRowsMatch(s[1..], group, item);
      assert ItemRows(s)[1..] == ItemRows(s[1..]);
      var rest := PairScores(s[1..], group, item);
      assert ([s[0].score] + rest)[1..] == rest;
    }
  }

  /**
   * `itemAvgs` holds one record per (group, item) pair that has a score, and
   * its average is the mean of all the scores recorded for that pair.
   */
  lemma ItemAvgsCorrect(s: seq<Entry>)
    ensures forall a :: a in ItemAvgs(s) ==>
      PairScores(s, a.group, a.item) != [] && a.average == Mean(PairScores(s, a.group, a.item))
    ensures forall e :: e in s ==> exists a :: a in ItemAvgs(s) && a.group == e.group && a.item == e.item
    ensures forall i, j :: 0 <= i < j < |ItemAvgs(s)| ==>
      (ItemAvgs(s)[i].group, ItemAvgs(s)[i].item) != (ItemAvgs(s)[j].group, ItemAvgs(s)[j].item)
  {
    var rows := ItemRows(s);
    var bs := Aggregate(rows);
    var avgs := ItemAvgs(s);
    AggregateCorrect(rows);
    forall a | a in avgs
      ensures PairScores(s, a.group, a.item) != [] && a.average == Mean(PairScores(s, a.group, a.item))
    {
      var j :| 0 <= j < |avgs| && avgs[j] == a;
      assert bs[j] in bs;
      ItemRowsMatch(s, a.group, a.item);
    }
    forall e | e in s ensures exists a :: a in avgs && a.group == e.group && a.item == e.item {
      ItemRowsMatch(s, e.group, e.item);
      assert HasKey(bs, (e.group, e.item));
      var b :| b in bs && b.key == (e.group, e.item);
      var j :| 0 <= j < |bs| && bs[j] == b;
      assert avgs[j] in avgs;
    }
  }

  // ---------------------------------------------------------------------------
  // Group totals

  /** The scores table keyed by (scorer_name, group_name). */
  function ScorerGroupRows(s: seq<Entry>): (r: seq<((string, string), int)>)
    ensures |r| == |s|
  {
    if s == [] then [] else [((s[0].scorer, s[0].group), s[0].score)] + ScorerGroupRows(s[1..])
  }

  /**
   * The inner query: `SELECT scorer_name, group_name, SUM(score) AS total_score ... GROUP BY scorer_name, group_name`:
   * at most one total per row, and none exactly when there are no rows
   * (what each total holds is `ScorerGroupTotalsCorrect`).
   */
  function ScorerGroupTotals(s: seq<Entry>): (r: seq<Bucket<(string, string)>>)
    ensures |r| <= |s|
    ensures r == [] <==> s == []
  {
    Aggregate(ScorerGroupRows(s))
  }

  /** The inner query's rows as (group_name, total_score), the input of the outer query. */
  function TotalRows(bs: seq<Bucket<(string, string)>>): (r: seq<(string, int)>)
    ensures |r| == |bs|
  {
    if bs == [] then [] else [(bs[0].key.1, bs[0].sum)] + TotalRows(bs[1..])
  }

  /**
   * The outer query before ordering: `SELECT group_name, AVG(total_score) ... GROUP BY group_name`:
   * at most one record per row, and none exactly when there are no rows.
   */
  function GroupAverages(s: seq<Entry>): (r: seq<GroupAvg>)
    ensures |r| <= |s|
    ensures r == [] <==> s == []
  {
    var bs := Aggregate(TotalRows(ScorerGroupTotals(s)));
    seq(|bs|, j requires 0 <= j < |bs| => GroupAvg(bs[j].key, Average(bs[j])))
  }

  /**
   * The outer query with `ORDER BY group_average DESC`: the records of the
   * outer query, each once, by non-increasing average (what each record holds
   * is `GroupTotalsCorrect`).
   */
  function GroupTotals(s: seq<Entry>): (r: seq<GroupAvg>)
    ensures multiset(r) == multiset(GroupAverages(s))
    ensures SortedDesc(r)
    ensures r == [] <==> s == []
  {
    SortDesc(GroupAverages(s))
  }

  lemma {:induction false} ScorerGroupRowsMatch(s: seq<Entry>, scorer: string, group: string)
    ensures SumFor(ScorerGroupRows(s), (scorer, group)) == Sum(ScorerGroupScores(s, scorer, group))
    ensures CountFor(ScorerGroupRows(s), (scorer, group)) == |ScorerGroupScores(s, scorer, group)|
  {
    if s != [] {
      ScorerGroupRowsMatch(s[1..], scorer, group);
      assert ScorerGroupRows(s)[1..] == ScorerGroupRows(s[1..]);
      var rest := ScorerGroupScores(s[1..], scorer, group);
      assert ([s[0].score] + rest)[1..] == rest;
    }
  }

  /**
   * The inner query holds one total per (scorer, group) pair that has a score,
   * and that total is the sum of the scores the scorer recorded in the group.
   */
  lemma ScorerGroupTotalsCorrect(s: seq<Entry>)
    ensures forall b :: b in ScorerGroupTotals(s) ==>
      ScorerGroupScores(s, b.key.0, b.key.1) != [] && b.sum == Sum(ScorerGroupScores(s, b.key.0, b.key.1))
    ensures forall e :: e in s ==> HasKey(ScorerGroupTotals(s), (e.scorer, e.group))
    ensures DistinctKeys(ScorerGroupTotals(s))
  {
    AggregateCorrect(ScorerGroupRows(s));
    forall b | b in ScorerGroupTotals(s)
      ensures ScorerGroupScores(s, b.key.0, b.key.1) != [] && b.sum == Sum(ScorerGroupScores(s, b.key.0, b.key.1))
    {
      ScorerGroupRowsMatch(s, b.key.0, b.key.1);
    }
    forall e | e in s ensures HasKey(ScorerGroupTotals(s), (e.scorer, e.group)) {
      ScorerGroupRowsMatch(s, e.scorer, e.group);
    }
  }

  /** Folding one (scorer, group) row into the inner query changes the outer query's input by that row only. */
  lemma {:induction false} AddRowTotals(bs: seq<Bucket<(string, string)>>, k: (string, string), v: int, g: string)
    ensures SumFor(TotalRows(AddRow(bs, k, v)), g) == SumFor(TotalRows(bs), g) + (if k.1 == g then v else 0)
    ensures CountFor(TotalRows(AddRow(bs, k, v)), g) ==
      CountFor(TotalRows(bs), g) + (if k.1 == g && !HasKey(bs, k) then 1 else 0)
  {
    var r := AddRow(bs, k, v);
    if bs == [] {
      assert TotalRows(r) == [(k.1, v)];
    } else if bs[0].key == k {
      assert r[1..] == bs[1..];
      assert TotalRows(r)[1..] == TotalRows(bs[1..]);
      assert TotalRows(bs)[1..] == TotalRows(bs[1..]);
      assert bs[0] in bs;
    } else {
      var tail := AddRow(bs[1..], k, v);
      AddRowTotals(bs[1..], k, v, g);
      assert r[1..] == tail;
      assert TotalRows(r)[1..] == TotalRows(tail);
      assert TotalRows(bs)[1..] == TotalRows(bs[1..]);
      assert HasKey(bs, k) <==> HasKey(bs[1..], k) by {
        if HasKey(bs, k) {
          var b :| b in bs && b.key == k;
          assert b in bs[1..];
        }
        if HasKey(bs[1..], k) {
          var b :| b in bs[1..] && b.key == k;
          assert b in bs;
        }
      }
    }
  }

  /** A (scorer, group) pair has an inner total exactly when the scorer recorded a score in the group. */
  lemma HasTotalIffScored(s: seq<Entry>, scorer: string, group: string)
    ensures HasKey(ScorerGroupTotals(s), (scorer, group)) <==> scorer in GroupScorers(s, group)
  {
    AggregateCorrect(ScorerGroupRows(s));
    ScorerGroupRowsMatch(s, scorer, group);
  }

  /** The inner totals of a group add up to all the scores recorded in the group. */
  lemma {:induction false} TotalRowsSum(s: seq<Entry>, g: string)
    ensures SumFor(TotalRows(ScorerGroupTotals(s)), g) == Sum(GroupScores(s, g))
  {
    if s != [] {
      var e, t := s[0], s[1..];
      var k := (e.scorer, e.group);
      assert ScorerGroupRows(s)[1..] == ScorerGroupRows(t);
      assert ScorerGroupTotals(s) == AddRow(ScorerGroupTotals(t), k, e.score);
      TotalRowsSum(t, g);
      AddRowTotals(ScorerGroupTotals(t), k, e.score, g);
      var rest := GroupScores(t, g);
      assert ([e.score] + rest)[1..] == rest;
    }
  }

  /** A group has one inner total per scorer that recorded a score in it. */
  lemma {:induction false} TotalRowsCount(s: seq<Entry>, g: string)
    ensures CountFor(TotalRows(ScorerGroupTotals(s)), g) == |GroupScorers(s, g)|
  {
    if s != [] {
      var e, t := s[0], s[1..];
      var k := (e.scorer, e.group);
      assert ScorerGroupRows(s)[1..] == ScorerGroupRows(t);
      assert ScorerGroupTotals(s) == AddRow(ScorerGroupTotals(t), k, e.score);
      TotalRowsCount(t, g);
      AddRowTotals(ScorerGroupTotals(t), k, e.score, g);
      HasTotalIffScored(t, e.scorer, g);
      var was := GroupScorers(t, g);
      if e.group == g {
        assert GroupScorers(s, g) == was + {e.scorer};
      } else {
        assert GroupScorers(s, g) == was;
      }
    }
  }

  /** The outer query before ordering: one record per group present, with its two-stage average. */
  lemma GroupAveragesCorrect(s: seq<Entry>)
    ensures forall a :: a in GroupAverages(s) ==>
      |GroupScorers(s, a.group)| > 0 &&
      a.average == Sum(GroupScores(s, a.group)) as real / |GroupScorers(s, a.group)| as real
    ensures forall e :: e in s ==> exists a :: a in GroupAverages(s) && a.group == e.group
    ensures DistinctGroups(GroupAverages(s))
  {
    var rows := TotalRows(ScorerGroupTotals(s));
    var bs := Aggregate(rows);
    var avgs := GroupAverages(s);
    AggregateCorrect(rows);
    forall a | a in avgs
      ensures |GroupScorers(s, a.group)| > 0
      ensures a.average == Sum(GroupScores(s, a.group)) as real / |GroupScorers(s, a.group)| as real
    {
      var j :| 0 <= j < |avgs| && avgs[j] == a;
      assert bs[j] in bs;
      TotalRowsSum(s, a.group);
      TotalRowsCount(s, a.group);
    }
    forall e | e in s ensures exists a :: a in avgs && a.group == e.group {
      TotalRowsCount(s, e.group);
      assert e.scorer in GroupScorers(s, e.group);
      assert HasKey(bs, e.group);
      var b :| b in bs && b.key == e.group;
      var j :| 0 <= j < |bs| && bs[j] == b;
      assert avgs[j] in avgs;
    }
  }

  /**
   * `groupTotals` holds one record per group that has a score, ordered by
   * non-increasing average; a group's average is the mean of the per-scorer
   * totals over the scorers that scored in that group, that is, the sum of the
   * group's scores divided by the number of those scorers (a scorer silent in
   * the group is not counted as a zero).
   */
  lemma GroupTotalsCorrect(s: seq<Entry>)
    ensures forall a :: a in GroupTotals(s) ==>
      |GroupScorers(s, a.group)| > 0 &&
      a.average == Sum(GroupScores(s, a.group)) as real / |GroupScorers(s, a.group)| as real
    ensures forall e :: e in s ==> exists a :: a in GroupTotals(s) && a.group == e.group
    ensures forall i, j :: 0 <= i < j < |GroupTotals(s)| ==> GroupTotals(s)[i].group != GroupTotals(s)[j].group
    ensures SortedDesc(GroupTotals(s))
  {
    var avgs := GroupAverages(s);
    var sorted := GroupTotals(s);
    GroupAveragesCorrect(s);
    SortDescDistinct(avgs);
    forall a | a in sorted
      ensures |GroupScorers(s, a.group)| > 0
      ensures a.average == Sum(GroupScores(s, a.group)) as real / |GroupScorers(s, a.group)| as real
    {
      assert a in multiset(avgs);
    }
    forall e | e in s ensures exists a :: a in sorted && a.group == e.group {
      var a :| a in avgs && a.group == e.group;
      assert a in multiset(sorted);
    }
  }

  // ---------------------------------------------------------------------------
  // ORDER BY group_average DESC

  ghost predicate SortedDesc(rs: seq<GroupAvg>) {
    forall i, j :: 0 <= i < j < |rs| ==> rs[i].average >= rs[j].average
  }

  ghost predicate DistinctGroups(rs: seq<GroupAvg>) {
    forall i, j :: 0 <= i < j < |rs| ==> rs[i].group != rs[j].group
  }

  lemma SortedCons(h: GroupAvg, t: seq<GroupAvg>)
    requires SortedDesc(t)
    requires forall j :: 0 <= j < |t| ==> h.average >= t[j].average
    ensures SortedDesc([h] + t)
  {
  }

  /** Places a record before the first record whose average does not exceed its own. */
  function Insert(x: GroupAvg, rs: seq<GroupAvg>): (r: seq<GroupAvg>)
    requires SortedDesc(rs)
    ensures SortedDesc(r)
    ensures multiset(r) == multiset(rs) + multiset{x}
  {
    if rs == [] || rs[0].average <= x.average then
      SortedCons(x, rs);
      [x] + rs
    else
      var tail := Insert(x, rs[1..]);
      assert rs == [rs[0]] + rs[1..];
      forall j | 0 <= j < |tail| ensures rs[0].average >= tail[j].average {
        assert tail[j] in multiset(tail);
        if tail[j] != x {
          assert tail[j] in multiset(rs[1..]);
        }
      }
      SortedCons(rs[0], tail);
      [rs[0]] + tail
  }

  /** `ORDER BY average DESC`: a permutation with non-increasing averages (ties in no defined order). */
  function SortDesc(rs: seq<GroupAvg>): (r: seq<GroupAvg>)
    ensures SortedDesc(r)
    ensures multiset(r) == multiset(rs)
  {
    if rs == [] then []
    else
      assert rs == [rs[0]] + rs[1..];
      Insert(rs[0], SortDesc(rs[1..]))
  }

  /** Reordering keeps records with distinct groups distinct. */
  lemma {:induction false} InsertDistinct(x: GroupAvg, rs: seq<GroupAvg>)
    requires SortedDesc(rs) && DistinctGroups(rs)
    requires forall y :: y in rs ==> y.group != x.group
    ensures DistinctGroups(Insert(x, rs))
  {
    if rs != [] && rs[0].average > x.average {
      var tail := Insert(x, rs[1..]);
      InsertDistinct(x, rs[1..]);
      forall j | 0 <= j < |tail| ensures rs[0].group != tail[j].group {
        assert tail[j] in multiset(tail);
        if tail[j] != x {
          assert tail[j] in multiset(rs[1..]);
          var m :| 0 <= m < |rs[1..]| && rs[1..][m] == tail[j];
          assert rs[m + 1] == tail[j];
        }
      }
    }
  }

  lemma {:induction false} SortDescDistinct(rs: seq<GroupAvg>)
    requires DistinctGroups(rs)
    ensures DistinctGroups(SortDesc(rs))
  {
    if rs != [] {
      var tail := SortDesc(rs[1..]);
      SortDescDistinct(rs[1..]);
      forall y | y in tail ensures y.group != rs[0].group {
        assert y in multiset(rs[1..]);
        var m :| 0 <= m < |rs[1..]| && rs[1..][m] == y;
        assert rs[m + 1] == y;
      }
      InsertDistinct(rs[0], tail);
    }
  }

  // ---------------------------------------------------------------------------
  // Scorer count

  /** `SELECT DISTINCT scorer_name FROM scores`. */
  function DistinctScorers(s: seq<Entry>): (r: seq<string>)
    ensures forall sc :: sc in r <==> sc in Scorers(s)
    ensures |r| == |Scorers(s)|
  {
    if s == [] then []
    else
      var rest := DistinctScorers(s[1..]);
      assert Scorers(s) == {s[0].scorer} + Scorers(s[1..]);
      if s[0].scorer in rest then
        assert Scorers(s) == Scorers(s[1..]);
        rest
      else
        assert |{s[0].scorer} + Scorers(s[1..])| == |Scorers(s[1..])| + 1 by {
          assert {s[0].scorer} + Scorers(s[1..]) == Scorers(s[1..]) + {s[0].scorer};
        }
        [s[0].scorer] + rest
  }

  /** `scorers.length`: the number of distinct scorer names with at least one row. */
  function ScorerCount(s: seq<Entry>): (n: nat)
    ensures n == |Scorers(s)|
  {
    |DistinctScorers(s)|
  }

  /**
   * The three results together. An empty scores table, and only an empty
   * one, gives no item averages, no group totals and a scorer count of 0.
   */
  function ComputeResults(s: seq<Entry>): (r: Results)
    ensures r.itemAvgs == [] <==> s == []
    ensures r.groupTotals == [] <==> s == []
    ensures r.scorerCount == 0 <==> s == []
  {
    ItemAvgsCorrect(s);
    GroupTotalsCorrect(s);
    assert s != [] ==> s[0] in s && s[0].scorer in Scorers(s);
    Results(ItemAvgs(s), GroupTotals(s), ScorerCount(s))
  }
}
