/**
 * The store behind the scoring app: the tables `config_items`,
 * `config_groups` and `scores`, and the four operations on them.
 * `saveConfig` and `saveScores` update the tables in place; `getConfig`
 * and `getResults` only read them.
 */
module Database {
  import opened Entries
  import Aggregation

  /** What `getConfig` returns: the item names and the group names. */
  datatype Config = Config(items: seq<string>, groups: seq<string>)

  /** The row an inserted submission holds for one (group, item) key of the payload. */
  ghost predicate InSubmission(e: Entry, scorer: string, submitted: map<string, map<string, int>>) {
    e.scorer == scorer && e.group in submitted && e.item in submitted[e.group]
    && e.score == submitted[e.group][e.item]
  }

  class Db {
    /** `config_items.name`, in insertion order. */
    var items: seq<string>
    /** `config_groups.name`, in insertion order. */
    var groups: seq<string>
    /** The rows of `scores`, in insertion order. */
    var scores: seq<Entry>

    /** At most one score per (scorer, group, item). */
    ghost predicate Valid()
      reads this
    {
      UniqueKeys(scores)
    }

    /** A freshly created store: all three tables empty. */
    constructor ()
      ensures Valid()
      ensures items == [] && groups == [] && scores == []
    {
      items := [];
      groups := [];
      scores := [];
    }

    /**
     * `saveConfig(items, groups)`: deletes every score, every item and every
     * group, then inserts the given items and groups one by one. Nothing of
     * the previous configuration or of any submission remains.
     */
    method SaveConfig(newItems: seq<string>, newGroups: seq<string>)
      modifies this
      ensures Valid()
      ensures scores == []
      ensures items == newItems && groups == newGroups
      ensures GetResults() == Aggregation.Results([], [], 0)
    {
      scores := [];
      items := [];
      groups := [];
      for k := 0 to |newItems|
        invariant items == newItems[..k]
        invariant scores == [] && groups == []
      {
        items := items + [newItems[k]];
      }
      for k := 0 to |newGroups|
        invariant groups == newGroups[..k]
        invariant scores == [] && items == newItems
      {
        groups := groups + [newGroups[k]];
      }
    }

    /** `getConfig()`: the stored names; with no ORDER BY, in no promised order. */
    function GetConfig(): (c: Config)
      reads this
      ensures multiset(c.items) == multiset(items)
      ensures multiset(c.groups) == multiset(groups)
    {
      Config(items, groups)
    }

    /**
     * `saveScores(scorerName, scores)`: deletes every row of `scorerName`,
     * then inserts one row per (group, item) key of the nested payload. The
     * rows of every other scorer, the items and the groups are untouched.
     */
    method SaveScores(scorerName: string, submitted: map<string, map<string, int>>)
      requires Valid()
      modifies this
      ensures Valid()
      ensures items == old(items) && groups == old(groups)
      ensures DeleteScorer(scores, scorerName) == DeleteScorer(old(scores), scorerName)
      ensures forall e :: e in scores && e.scorer == scorerName <==> InSubmission(e, scorerName, submitted)
      ensures scorerName in Scorers(scores) <==> exists g :: g in submitted && submitted[g] != map[]
    {
      scores := DeleteScorer(scores, scorerName);
      ghost var kept := scores;
      DeleteScorerIdempotent(old(scores), scorerName);
      var pending := submitted.Keys;
      while pending != {}
        invariant pending <= submitted.Keys
        invariant Valid()
        invariant items == old(items) && groups == old(groups)
        invariant DeleteScorer(scores, scorerName) == kept
        invariant forall e :: e in scores && e.scorer == scorerName ==>
          InSubmission(e, scorerName, submitted) && e.group !in pending
        invariant forall g, i :: g in submitted && g !in pending && i in submitted[g] ==>
          Entry(scorerName, g, i, submitted[g][i]) in scores
        decreases pending
      {
        var groupName :| groupName in pending;
        var row := submitted[groupName];
        var pendingItems := row.Keys;
        while pendingItems != {}
          invariant pendingItems <= row.Keys
          invariant Valid()
          invariant items == old(items) && groups == old(groups)
          invariant DeleteScorer(scores, scorerName) == kept
          invariant forall e :: e in scores && e.scorer == scorerName ==>
            InSubmission(e, scorerName, submitted)
            && (e.group !in pending || (e.group == groupName && e.item !in pendingItems))
          invariant forall g, i :: g in submitted && g !in pending && i in submitted[g] ==>
            Entry(scorerName, g, i, submitted[g][i]) in scores
          invariant forall i :: i in row && i !in pendingItems ==>
            Entry(scorerName, groupName, i, row[i]) in scores
          decreases pendingItems
        {
          var itemName :| itemName in pendingItems;
          var e := Entry(scorerName, groupName, itemName, row[itemName]);
          assert forall x :: x in scores ==> Key(x) != Key(e);
          assert (scores + [e])[..|scores|] == scores;
          scores := scores + [e];
          pendingItems := pendingItems - {itemName};
        }
        pending := pending - {groupName};
      }
      if exists g :: g in submitted && submitted[g] != map[] {
        var g :| g in submitted && submitted[g] != map[];
        var i :| i in submitted[g];
        assert Entry(scorerName, g, i, submitted[g][i]) in scores;
      }
    }

    /**
     * `getResults()`: the three aggregates of the current scores. The scorer
     * count is the number of distinct scorer names among the rows.
     */
    function GetResults(): (r: Aggregation.Results)
      reads this
      ensures r.itemAvgs == Aggregation.ItemAvgs(scores)
      ensures r.groupTotals == Aggregation.GroupTotals(scores)
      ensures r.scorerCount == |Scorers(scores)|
    {
      Aggregation.ComputeResults(scores)
    }
  }
}
