/**
 * The four API handlers of the scoring app, reduced to what they decide: the
 * two POST handlers reject a request whose body fails their guard before the
 * store is touched, and otherwise pass the body's fields to the store; the
 * two GET handlers return what the store reads.
 */
module Server {
  import opened Entries
  import Aggregation
  import Database

  /** A JSON body field: absent (or null), or present with a value. */
  datatype Option<T> = None | Some(value: T)

  /** The outcome a POST handler reports: saved (200) or rejected (400). */
  datatype Status = Saved | BadRequest

  /** The body of `POST /api/config`. */
  datatype ConfigRequest = ConfigRequest(items: Option<seq<string>>, groups: Option<seq<string>>)

  /** The body of `POST /api/score`: a scorer name and nested scores[group][item]. */
  datatype ScoreRequest = ScoreRequest(scorerName: Option<string>, scores: Option<map<string, map<string, int>>>)

  /** JavaScript truthiness of a body field holding an array or an object: any present value, an empty one included. */
  predicate Truthy<T>(field: Option<T>) {
    field.Some?
  }

  /** JavaScript truthiness of a body field holding a string: the empty string is falsy. */
  predicate TruthyString(field: Option<string>) {
    field.Some? && field.value != ""
  }

  /**
   * The guard `!items || !groups || items.length === 0 || groups.length === 0`:
   * a configuration is accepted exactly when both lists are present and non-empty.
   */
  function RejectsConfig(req: ConfigRequest): (r: bool)
    ensures !r <==> req.items.Some? && req.items.value != [] && req.groups.Some? && req.groups.value != []
  {
    !Truthy(req.items) || !Truthy(req.groups) || |req.items.value| == 0 || |req.groups.value| == 0
  }

  /**
   * The guard `!scorerName || !scores`: a submission is accepted exactly when
   * the name is present and non-empty and the scores object is present, even
   * when that object is empty.
   */
  function RejectsScore(req: ScoreRequest): (r: bool)
    ensures !r <==> req.scorerName.Some? && req.scorerName.value != "" && req.scores.Some?
    ensures req.scores == Some(map[]) ==> (r <==> !TruthyString(req.scorerName))
  {
    !TruthyString(req.scorerName) || !Truthy(req.scores)
  }

  /** `POST /api/config`. */
  method PostConfig(db: Database.Db, req: ConfigRequest) returns (status: Status)
    requires db.Valid()
    modifies db
    ensures db.Valid()
    ensures status == BadRequest <==> RejectsConfig(req)
    ensures status == BadRequest ==> unchanged(db)
    ensures status == Saved ==>
      db.items == req.items.value && db.groups == req.groups.value && db.scores == []
  {
    if RejectsConfig(req) {
      return BadRequest;
    }
    db.SaveConfig(req.items.value, req.groups.value);
    return Saved;
  }

  /** `POST /api/score`. */
  method PostScore(db: Database.Db, req: ScoreRequest) returns (status: Status)
    requires db.Valid()
    modifies db
    ensures db.Valid()
    ensures status == BadRequest <==> RejectsScore(req)
    ensures status == BadRequest ==> unchanged(db)
    ensures status == Saved ==>
      var name, submitted := req.scorerName.value, req.scores.value;
      && db.items == old(db.items) && db.groups == old(db.groups)
      && DeleteScorer(db.scores, name) == DeleteScorer(old(db.scores), name)
      && (forall e :: e in db.scores && e.scorer == name <==> Database.InSubmission(e, name, submitted))
      && (submitted == map[] ==> name !in Scorers(db.scores))
  {
    if RejectsScore(req) {
      return BadRequest;
    }
    db.SaveScores(req.scorerName.value, req.scores.value);
    return Saved;
  }

  /** `GET /api/config`: what `getConfig` reads, and nothing changes. */
  method GetConfigRoute(db: Database.Db) returns (config: Database.Config)
    ensures config == db.GetConfig()
  {
    config := db.GetConfig();
  }

  /** `GET /api/results`: what `getResults` computes, and nothing changes. */
  method GetResultsRoute(db: Database.Db) returns (results: Aggregation.Results)
    ensures results == db.GetResults()
  {
    results := db.GetResults();
  }
}
