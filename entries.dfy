/**
 * Rows of the `scores` table, and the reference definitions that the
 * aggregation queries are proved against: the scores recorded for a pair,
 * for a group, for a scorer within a group, and the scorers that occur.
 */
module Entries {

  /** One row of the `scores` table: (scorer_name, group_name, item_name, score). */
  datatype Entry = Entry(scorer: string, group: string, item: string, score: int)

  /** The triple a submission holds at most one row for. */
  function Key(e: Entry): (string, string, string) {
    (e.scorer, e.group, e.item)
  }

  /** No two rows share a (scorer, group, item) triple. */
  ghost predicate UniqueKeys(s: seq<Entry>) {
    forall i, j :: 0 <= i < j < |s| ==> Key(s[i]) != Key(s[j])
  }

  /**
   * `DELETE FROM scores WHERE scorer_name = ?`: the rows of every other
   * scorer, each as often as before (`DeleteScorerCounts`), in their table
   * order (`DeleteScorerAppend`).
   */
  function DeleteScorer(s: seq<Entry>, name: string): (r: seq<Entry>)
    ensures forall e :: e in r <==> e in s && e.scorer != name
    ensures |r| <= |s|
    ensures UniqueKeys(s) ==> UniqueKeys(r)
  {
    if s == [] then []
    else
      var init, last := s[..|s| - 1], s[|s| - 1];
      assert s == init + [last];
      var rest := DeleteScorer(init, name);
      if last.scorer == name then rest else rest + [last]
  }

  /** Deleting from a table with one more row at the end treats that row alone. */
  lemma DeleteScorerSnoc(s: seq<Entry>, x: Entry, name: string)
    ensures DeleteScorer(s + [x], name) == if x.scorer == name then DeleteScorer(s, name) else DeleteScorer(s, name) + [x]
  {
    assert (s + [x])[..|s|] == s;
  }

  /**
   * The delete works row by row: on a table split in two, it keeps the kept
   * rows of the first part, in order, followed by the kept rows of the second.
   */
  lemma {:induction false} DeleteScorerAppend(a: seq<Entry>, b: seq<Entry>, name: string)
    ensures DeleteScorer(a + b, name) == DeleteScorer(a, name) + DeleteScorer(b, name)
  {
    if b == [] {
      assert a + b == a;
    } else {
      var init, last := b[..|b| - 1], b[|b| - 1];
      var da, di := DeleteScorer(a, name), DeleteScorer(init, name);
      calc {
        DeleteScorer(a + b, name);
        { assert a + b == (a + init) + [last]; }
        DeleteScorer((a + init) + [last], name);
        { DeleteScorerSnoc(a + init, last, name); DeleteScorerAppend(a, init, name); }
        if last.scorer == name then da + di else (da + di) + [last];
        { assert (da + di) + [last] == da + (di + [last]); }
        if last.scorer == name then da + di else da + (di + [last]);
        { assert b == init + [last]; DeleteScorerSnoc(init, last, name); }
        da + DeleteScorer(b, name);
      }
    }
  }

  /** Every row of another scorer survives as many times as it occurred; no row of the scorer survives. */
  lemma {:induction false} DeleteScorerCounts(s: seq<Entry>, name: string)
    ensures forall e :: multiset(DeleteScorer(s, name))[e] == if e.scorer == name then 0 else multiset(s)[e]
  {
    if s != [] {
      var init, last := s[..|s| - 1], s[|s| - 1];
      assert s == init + [last];
      DeleteScorerCounts(init, name);
      DeleteScorerSnoc(init, last, name);
    }
  }

  /** Deleting a scorer's rows a second time removes nothing more. */
  lemma {:induction false} DeleteScorerIdempotent(s: seq<Entry>, name: string)
    ensures DeleteScorer(DeleteScorer(s, name), name) == DeleteScorer(s, name)
  {
    if s != [] {
      var init, last := s[..|s| - 1], s[|s| - 1];
      var rest := DeleteScorer(init, name);
      DeleteScorerIdempotent(init, name);
      if last.scorer != name {
        assert (rest + [last])[..|rest|] == rest;
      }
    }
  }

  /** Sum of a list of scores. */
  function Sum(xs: seq<int>): int {
    if xs == [] then 0 else xs[0] + Sum(xs[1..])
  }

  /** Exact arithmetic mean of a non-empty list of scores. */
  function Mean(xs: seq<int>): real
    requires xs != []
  {
    Sum(xs) as real / |xs| as real
  }

  /** The scores recorded for the pair (group, item), by every scorer. */
  function PairScores(s: seq<Entry>, group: string, item: string): (r: seq<int>)
    ensures |r| > 0 <==> exists e :: e in s && e.group == group && e.item == item
  {
    if s == [] then []
    else
      var rest := PairScores(s[1..], group, item);
      assert forall e :: e in s <==> e == s[0] || e in s[1..];
      if s[0].group == group && s[0].item == item then [s[0].score] + rest else rest
  }

  /** The scores recorded in a group, by every scorer and for every item. */
  function GroupScores(s: seq<Entry>, group: string): (r: seq<int>)
    ensures |r| > 0 <==> exists e :: e in s && e.group == group
  {
    if s == [] then []
    else
      var rest := GroupScores(s[1..], group);
      assert forall e :: e in s <==> e == s[0] || e in s[1..];
      if s[0].group == group then [s[0].score] + rest else rest
  }

  /** The scores one scorer recorded in a group, over all items. */
  function ScorerGroupScores(s: seq<Entry>, scorer: string, group: string): (r: seq<int>)
    ensures |r| > 0 <==> exists e :: e in s && e.scorer == scorer && e.group == group
  {
    if s == [] then []
    else
      var rest := ScorerGroupScores(s[1..], scorer, group);
      assert forall e :: e in s <==> e == s[0] || e in s[1..];
      if s[0].scorer == scorer && s[0].group == group then [s[0].score] + rest else rest
  }

  /** The scorers that recorded at least one score in a group. */
  function GroupScorers(s: seq<Entry>, group: string): (r: set<string>)
    ensures forall sc :: sc in r <==> exists e :: e in s && e.scorer == sc && e.group == group
  {
    if s == [] then {}
    else
      var rest := GroupScorers(s[1..], group);
      assert forall e :: e in s <==> e == s[0] || e in s[1..];
      if s[0].group == group then {s[0].scorer} + rest else rest
  }

  /** The scorers that have at least one row. */
  function Scorers(s: seq<Entry>): (r: set<string>)
    ensures forall sc :: sc in r <==> exists e :: e in s && e.scorer == sc
  {
    if s == [] then {}
    else
      var rest := Scorers(s[1..]);
      assert forall e :: e in s <==> e == s[0] || e in s[1..];
      {s[0].scorer} + rest
  }
}
