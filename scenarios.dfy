/**
 * Worked scenarios: concrete submissions and what the model proves the
 * results are.
 */
module Scenarios {
  import opened Entries
  import opened Aggregation
  import Database

  lemma ThreeScoresInOneGroup(s: seq<Entry>)
    requires s == [Entry("A", "G", "X", 10), Entry("A", "G", "Y", 20), Entry("B", "G", "X", 6)]
    ensures GroupScorers(s, "G") == {"A", "B"}
    ensures Sum(GroupScores(s, "G")) == 36
    ensures s != [] && forall e :: e in s ==> e.group == "G"
  {
    assert s[1..][1..][1..] == [];
    assert GroupScores(s[1..][1..], "G") == [6];
    assert GroupScores(s[1..], "G") == [20, 6];
    assert GroupScores(s, "G") == [10, 20, 6];
    assert Sum([10, 20, 6]) == 36;
  }
  /** When every score is in group g, `groupTotals` is the single record for g. */
  lemma OneGroup(s: seq<Entry>, g: string, avg: real)
    requires s != [] && forall e :: e in s ==> e.group == g
    requires |GroupScorers(s, g)| > 0 && Sum(GroupScores(s, g)) as real / |GroupScorers(s, g)| as real == avg
    ensures GroupAvg(g, avg) in GroupTotals(s)
    ensures forall a :: a in GroupTotals(s) ==> a == GroupAvg(g, avg)
  {
    GroupTotalsCorrect(s);
    assert s[0] in s;
    forall a | a in GroupTotals(s) ensures a == GroupAvg(g, avg) {
      var e :| e in s && e.scorer in GroupScorers(s, a.group) && e.group == a.group;
    }
  }
  /**
   * Scorer A gives X = 10 and Y = 20 in group G (total 30); scorer B gives only
   * X = 6 (total 6). G's average is (30 + 6) / 2 = 18: B's silence on Y is not
   * counted, and B is not averaged in as a zero.
   */
  lemma SilenceIsNotZero(s: seq<Entry>)
    requires s == [Entry("A", "G", "X", 10), Entry("A", "G", "Y", 20), Entry("B", "G", "X", 6)]
    ensures GroupAvg("G", 18.0) in GroupTotals(s)
    ensures forall a :: a in GroupTotals(s) ==> a == GroupAvg("G", 18.0)
  {
    ThreeScoresInOneGroup(s);
    OneGroup(s, "G", 18.0);
  }

  /** When no other scorer has rows, the rows are exactly the scorer's submission. */
  lemma OnlySubmission(s: seq<Entry>, name: string, submitted: map<string, map<string, int>>)
    requires DeleteScorer(s, name) == []
    requires forall e :: e in s && e.scorer == name <==> Database.InSubmission(e, name, submitted)
    ensures forall e :: e in s <==> Database.InSubmission(e, name, submitted)
  {
  }

  /**
   * A scorer who submits twice is replaced, not merged: after a reset and two
   * submissions by "A", only the second submission's row is left, and "A"
   * counts as one scorer.
   */
  method ResubmissionReplaces(db: Database.Db)
    modifies db
    ensures db.Valid()
    ensures forall e :: e in db.scores <==> e == Entry("A", "G", "Y", 20)
    ensures db.GetResults().scorerCount == 1
  {
    db.SaveConfig(["X", "Y"], ["G"]);
    var first := map["G" := map["X" := 10]];
    var second := map["G" := map["Y" := 20]];
    db.SaveScores("A", first);
    db.SaveScores("A", second);
    OnlySubmission(db.scores, "A", second);
    assert forall e :: Database.InSubmission(e, "A", second) <==> e == Entry("A", "G", "Y", 20);
    assert Scorers(db.scores) == {"A"};
  }
}
