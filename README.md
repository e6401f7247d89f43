# Scoring engine: a verified Dafny model

This project models the scoring engine of a small scoring web app. An
administrator sets a roster of **items** and **groups**. Independent
**scorers** submit integer scores keyed by (group, item). The app computes:

- the average score of each (group, item) pair;
- the average, over the scorers present in a group, of each scorer's total
  in that group, ranked from highest to lowest;
- the number of distinct scorers.

The store has three tables: `config_items`, `config_groups` and `scores`.
The model keeps them in memory as three sequence fields of the class
`Database.Db`:

- `items: seq<string>`
- `groups: seq<string>`
- `scores: seq<Entry>`, where `Entry(scorer, group, item, score: int)` is one
  row of `scores`.

Modules, one per concern:

- `Entries` (entries.dfy): the row type and the reference definitions the
  queries are proved against. These are the scores of a pair, of a group and
  of a scorer in a group, the set of scorers present in a group, the set of
  all scorers, and `DELETE ... WHERE scorer_name = ?`.
- `GroupBy` (group_by.dfy): `GROUP BY` with `SUM` and `COUNT`, written as a
  fold of rows into buckets. `AggregateCorrect` proves the fold correct.
- `Aggregation` (aggregation.dfy): the three queries of `getResults` as pure
  functions of the rows. They are the item averages, the two-stage group
  averages with their `ORDER BY ... DESC`, and the distinct-scorer count.
  Each comes with its correctness lemma.
- `Database` (database.dfy): the class `Db`. `SaveConfig` and `SaveScores`
  change the tables in place with loops. `GetConfig` and `GetResults` only
  read them.
- `Server` (server.dfy): the request guards of the two POST handlers, and
  the four handlers passing through to the store.
- `Scenarios` (scenarios.dfy): worked cases. One shows that silence in a
  group is excluded from its average. Another shows that a resubmission
  replaces the earlier one.

The state invariant `Db.Valid()` says that no two rows share a
(scorer, group, item) triple. The constructor establishes it, and both
mutating operations preserve it. Averages are exact `real` divisions of an
integer sum by a positive count.

The group average is computed in two stages, as in the source. Stage A sums
each scorer's scores within a group. Stage B averages those per-scorer totals
over the scorers that have a total for the group. `GroupTotalsCorrect` states
the result as "sum of the group's scores divided by the number of distinct
scorers with a score in the group". That is the same number, because the
per-scorer totals of a group add up to the group's scores, and there is one
total per scorer present (`TotalRowsSum`, `TotalRowsCount`). A scorer with
no score in a group adds nothing to the numerator and nothing to the
denominator.

Two points of the code shape the model:

- The code issues separate statements with no transaction. The model treats
  each configuration write and each submission as one sequential step, which
  is what the code does when it runs alone.
- `saveConfig` and `saveScores` accept any input. Empty lists and an empty
  scorer name are rejected only by the HTTP handlers' guards
  (`Server.RejectsConfig`, `Server.RejectsScore`).

## Model

| member | source | states |
|---|---|---|
| `Entries.DeleteScorer` | database.js:70 | The rows left are exactly the rows of other scorers, and no two of them share a (scorer, group, item) triple if none did before. |
| `Entries.DeleteScorerCounts` | database.js:70 | Each row of another scorer survives exactly as many times as it occurred, and no row of the named scorer survives. |
| `Entries.DeleteScorerAppend` | database.js:70 | The delete keeps table order: on a table split in two, the result is the kept rows of the first part followed by the kept rows of the second. |
| `Entries.DeleteScorerIdempotent` | database.js:70 | Deleting a scorer's rows a second time removes nothing more. |
| `Entries.PairScores` | database.js:85-89 | Reference definition that `Aggregation.ItemAvgsCorrect` proves the item query against: the scores recorded for a (group, item) pair, non-empty exactly when some row has that pair. |
| `Entries.GroupScores` | database.js:92-99 | Reference definition that `Aggregation.GroupTotalsCorrect` proves the group query against: the scores recorded in a group, non-empty exactly when some row is in that group. |
| `Entries.ScorerGroupScores` | database.js:95-97 | Reference definition that `Aggregation.ScorerGroupTotalsCorrect` proves the inner query against: a scorer's scores in a group, non-empty exactly when that scorer has a row in the group. |
| `Entries.GroupScorers` | database.js:93-98 | Reference definition of the divisor of the outer `AVG`: a name is among a group's scorers exactly when some row has that scorer and that group. |
| `Entries.Scorers` | database.js:104 | Reference definition that the scorer count is proved against: a name is a scorer exactly when some row carries it. |
| `GroupBy.AddRow` | database.js:88 | Folding a row into the groups either grows the group of its key or opens one new group: the number of groups grows by one exactly when the key is new. |
| `GroupBy.Aggregate` | database.js:86-88 | `GROUP BY` gives at most one group per row, and no group exactly when there are no rows. |
| `GroupBy.AddRowKeys` | database.js:88 | Folding a row into the groups adds exactly that row's key, and keys stay distinct. |
| `GroupBy.AddRowSummarizes` | database.js:86-88 | After a row is folded in, every group still holds the sum and the count of the rows with its key. |
| `GroupBy.AggregateCorrect` | database.js:86-88 | `GROUP BY` gives one group per key. Each group's sum and count are those of the rows with its key. A key has a group exactly when some row carries it. |
| `Aggregation.ItemAvgs` | database.js:85-89 | The item query returns at most one record per row of `scores`, and no record exactly when `scores` is empty. |
| `Aggregation.ItemRowsMatch` | database.js:86-88 | For a pair, the grouped rows' sum and count equal the sum and the number of the pair's recorded scores. |
| `Aggregation.ItemAvgsCorrect` | database.js:85-89 | `itemAvgs` has one record per (group, item) pair present in `scores`, and no record for a pair that is absent. Its average is the exact mean of all scores recorded for that pair. |
| `Aggregation.ScorerGroupTotals` | database.js:95-97 | The inner query returns at most one total per row, and none exactly when `scores` is empty. |
| `Aggregation.ScorerGroupRowsMatch` | database.js:95-97 | For a (scorer, group), the grouped rows' sum and count equal the sum and the number of that scorer's scores in the group. |
| `Aggregation.ScorerGroupTotalsCorrect` | database.js:94-98 | Stage A has one total per (scorer, group) pair present, with distinct keys. The total is the sum of that scorer's scores in that group. |
| `Aggregation.AddRowTotals` | database.js:93-99 | Folding one row into stage A changes stage B's input only in the row's group. The sum grows by the score. The count grows by one exactly when the (scorer, group) is new. |
| `Aggregation.HasTotalIffScored` | database.js:94-98 | Stage A has a total for (scorer, group) exactly when that scorer has a score in that group. |
| `Aggregation.TotalRowsSum` | database.js:93-99 | A group's stage A totals add up to all the scores recorded in the group. |
| `Aggregation.TotalRowsCount` | database.js:93-99 | A group has one stage A total per distinct scorer present in it. Silent scorers get no zero total. |
| `Aggregation.GroupAverages` | database.js:93-99 | The outer query, before ordering, returns at most one record per row, and none exactly when `scores` is empty. |
| `Aggregation.GroupAveragesCorrect` | database.js:93-99 | The outer query has one record per group present, with distinct groups. A group's average is the group's score sum divided by the number of scorers present in it. |
| `Aggregation.GroupTotals` | database.js:92-101 | `groupTotals` holds the outer query's records, each once, ordered by non-increasing average, and is empty exactly when `scores` is empty. |
| `Aggregation.GroupTotalsCorrect` | database.js:92-101 | `groupTotals` has one record per group present, and is sorted non-increasing by average. A group's average is the mean of its per-scorer totals over the scorers present in it, which equals the group's score sum divided by the number of those scorers. |
| `Aggregation.Insert` | database.js:100 | Inserting a record into a list sorted by descending average keeps it sorted. The result is the old list plus that record, as a multiset. |
| `Aggregation.SortDesc` | database.js:100 | `ORDER BY group_average DESC` gives a permutation of its input with non-increasing averages. |
| `Aggregation.InsertDistinct` | database.js:100 | Inserting a record whose group is new keeps the groups distinct. |
| `Aggregation.SortDescDistinct` | database.js:100 | Sorting keeps distinct groups distinct. |
| `Aggregation.DistinctScorers` | database.js:104 | `SELECT DISTINCT scorer_name` lists exactly the scorers present, each once. Its length is the number of distinct scorer names. |
| `Aggregation.ScorerCount` | database.js:109 | `scorerCount` is the number of distinct scorer names among the rows. |
| `Aggregation.ComputeResults` | database.js:83-111 | Item averages, group totals and scorer count are empty (zero) exactly when the scores table is empty. |
| `Database.Db.constructor` | database.js:18-33 | A freshly created store has three empty tables and satisfies the invariant. |
| `Database.Db.SaveConfig` | database.js:39-55 | Every score is deleted. The items and the groups are then exactly the given sequences, duplicates included, with nothing of the old configuration left. The results become empty, with scorer count 0. The invariant is kept. |
| `Database.Db.GetConfig` | database.js:58-64 | Returns the stored item names and group names, as permutations of the tables, because there is no ORDER BY. |
| `Database.Db.SaveScores` | database.js:68-80 | Every other scorer's rows are unchanged, in order. The named scorer's rows are exactly one row (g, i, m[g][i]) per key of the nested payload m. Items and groups are untouched. The scorer stays counted exactly when the payload has some item. |
| `Database.Db.GetResults` | database.js:83-111 | Reads the current rows and does not change them. Returns the item averages and the ranked group totals of those rows, and the number of distinct scorer names as the scorer count. |
| `Server.RejectsConfig` | server.js:17 | The configuration guard, written with JavaScript truthiness, accepts a body exactly when `items` and `groups` are both present and non-empty. |
| `Server.RejectsScore` | server.js:41 | The submission guard accepts a body exactly when `scorerName` is present and non-empty and `scores` is present. An empty `{}` scores object is accepted. |
| `Server.PostConfig` | server.js:14-25 | A body with `items` or `groups` missing, or of length 0, is rejected and the store is unchanged. Otherwise `saveConfig` runs with exactly the supplied items and groups. |
| `Server.PostScore` | server.js:38-49 | A missing or empty `scorerName`, or missing `scores`, is rejected and the store is unchanged. Otherwise `saveScores` runs with the supplied values. An empty `{}` payload passes the guard and clears that scorer. |
| `Server.GetConfigRoute` | server.js:28-35 | Returns `getConfig()` as it is, and modifies nothing. |
| `Server.GetResultsRoute` | server.js:52-59 | Returns `getResults()` as it is, and modifies nothing. |
| `Scenarios.OneGroup` | database.js:92-101 | When every score is in one group, `groupTotals` holds exactly that group's record. |
| `Scenarios.SilenceIsNotZero` | database.js:92-101 | Scorer A gives X=10 and Y=20 in G, and scorer B gives only X=6. G's average is 18, not 12. |
| `Scenarios.ResubmissionReplaces` | database.js:68-80 | After a reset and two submissions by one scorer, only the second submission's row remains, and the scorer count is 1. |

## Left out

- SQLite itself, the `sqlite3` driver, table creation by `initDb` and the choice of database file (database.js:1-36). The tables are in-memory sequences. Reopening an existing database file (`CREATE TABLE IF NOT EXISTS` keeps old rows) is not modelled; the constructor models a new, empty store.
- The Express setup, static files, JSON parsing, response messages and `startServer` (server.js:1-9, 61-69). The 200/400 outcome is kept as `Status`. The 500 path, for an exception from the store, is not modelled, because storage failures are outside the model.
- async/await and concurrency. The code runs separate statements with no transaction. Each operation is modelled as one uninterrupted step. Interleaved requests, including two submissions by one scorer that interleave their delete and inserts and could leave duplicate rows, are not modelled.
- Entries.Entry, Database.Db.SaveConfig and Database.Db.SaveScores: names are modelled as sequences of Unicode scalar values (Dafny `char`), compared exactly. JavaScript strings holding unpaired surrogates (such as `"\ud800"`, which a JSON body can carry) are not modelled. The sqlite3 driver stores such strings as UTF-8 with each unpaired surrogate replaced by U+FFFD, so two distinct names can merge into one stored name: a later `DELETE ... WHERE scorer_name = ?` (database.js:70) then removes the other name's rows, and `getConfig` (database.js:59-62) returns the replaced text.
- Aggregation.GroupTotals and the `score` field of Entries.Entry: scores are unbounded integers. The 64-bit bound of SQLite's `INTEGER` column (database.js:32) is not modelled. Neither is the "integer overflow" error that `SUM(score)` (database.js:95) raises when a total passes 2^63 - 1, which makes `getResults` throw and `GET /api/results` answer 500. The model instead returns the exact total's average.
- Floating-point `AVG`: averages are exact `real` divisions of an integer sum by a positive count.
- Row order of un-ordered SELECTs and tie order in `ORDER BY`. `ItemAvgs` and the grouped rows come in one admissible order, and the lemmas state set, multiset and ordering properties only. `SortDesc` picks one admissible order among equal averages.
- Database.Db.SaveScores: does not state where the submission's rows sit in the table relative to the kept rows, nor their order among themselves. The code appends them after the kept rows, in the object key order of JavaScript's `for...in`; the model iterates the payload's keys in an unspecified order. What the contract states is that the rows of the other scorers keep their sequence (`DeleteScorer` of the new table equals `DeleteScorer` of the old one), and exactly which rows the scorer has.
- Request bodies whose fields are not what the handlers expect are not modelled. This covers `items` or `groups` that are strings or other non-arrays, array elements that are not strings, a `scores[group]` that is not an object, score values that are not integers, and SQLite type affinity. Fields are either absent (or null) or well-typed; a falsy `scorerName` is absent or the empty string.
