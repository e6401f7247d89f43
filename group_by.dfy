/**
 * A `GROUP BY key` with `SUM(value)` and `COUNT(*)`, as a fold of rows into
 * buckets, and the proof that it computes, for every key that occurs, the sum
 * and the number of the rows carrying that key, once per key.
 */
module GroupBy {

  type Pos = n: int | 0 < n witness 1

  /** One output group: its key, the sum of its values and how many rows it has. */
  datatype Bucket<K> = Bucket(key: K, sum: int, count: Pos)

  /** Sum of the values of the rows with key `k` (the reference for a bucket's `sum`). */
  function SumFor<K(==)>(rows: seq<(K, int)>, k: K): int {
    if rows == [] then 0
    else (if rows[0].0 == k then rows[0].1 else 0) + SumFor(rows[1..], k)
  }

  /** Number of rows with key `k` (the reference for a bucket's `count`). */
  function CountFor<K(==)>(rows: seq<(K, int)>, k: K): nat {
    if rows == [] then 0
    else (if rows[0].0 == k then 1 else 0) + CountFor(rows[1..], k)
  }

  ghost predicate HasKey<K>(bs: seq<Bucket<K>>, k: K) {
    exists b :: b in bs && b.key == k
  }

  ghost predicate DistinctKeys<K>(bs: seq<Bucket<K>>) {
    forall i, j :: 0 <= i < j < |bs| ==> bs[i].key != bs[j].key
  }

  /** Past a first bucket of another key, a key is present exactly when it is in the rest. */
  lemma HasKeyTail<K>(bs: seq<Bucket<K>>, k: K)
    requires bs != [] && bs[0].key != k
    ensures HasKey(bs, k) == HasKey(bs[1..], k)
  {
    assert forall b :: b in bs <==> b == bs[0] || b in bs[1..];
  }

  /** Every bucket holds the sum and the count of the rows with its key. */
  ghost predicate Summarizes<K>(bs: seq<Bucket<K>>, rows: seq<(K, int)>) {
    forall b :: b in bs ==> b.sum == SumFor(rows, b.key) && b.count == CountFor(rows, b.key)
  }

  /**
   * Folds one row into the buckets: the bucket of its key grows, or a new
   * bucket is opened, so the number of buckets grows by one exactly when the
   * key is new.
   */
  function AddRow<K(==)>(bs: seq<Bucket<K>>, k: K, v: int): (r: seq<Bucket<K>>)
    ensures |r| == |bs| + (if HasKey(bs, k) then 0 else 1)
  {
    if bs == [] then [Bucket(k, v, 1)]
    else if bs[0].key == k then
      assert bs[0] in bs;
      [Bucket(k, bs[0].sum + v, bs[0].count + 1)] + bs[1..]
    else
      HasKeyTail(bs, k);
      [bs[0]] + AddRow(bs[1..], k, v)
  }

  /** The grouped rows: at most one bucket per row, and none exactly when there are no rows. */
  function Aggregate<K(==)>(rows: seq<(K, int)>): (r: seq<Bucket<K>>)
    ensures |r| <= |rows|
    ensures r == [] <==> rows == []
  {
    if rows == [] then [] else AddRow(Aggregate(rows[1..]), rows[0].0, rows[0].1)
  }

  lemma {:induction false} ZeroCountZeroSum<K>(rows: seq<(K, int)>, k: K)
    requires CountFor(rows, k) == 0
    ensures SumFor(rows, k) == 0
  {
    if rows != [] {
      ZeroCountZeroSum(rows[1..], k);
    }
  }

  /** Adding a row adds exactly its key to the keys present, and keeps keys distinct. */
  lemma {:induction false} AddRowKeys<K>(bs: seq<Bucket<K>>, k: K, v: int)
    requires DistinctKeys(bs)
    ensures DistinctKeys(AddRow(bs, k, v))
    ensures forall k' :: HasKey(AddRow(bs, k, v), k') <==> k' == k || HasKey(bs, k')
  {
    var r := AddRow(bs, k, v);
    if bs == [] {
      assert r[0].key == k;
    } else if bs[0].key == k {
      assert r[0].key == k;
      forall k' ensures HasKey(r, k') <==> k' == k || HasKey(bs, k') {
        if HasKey(bs, k') {
          var b :| b in bs && b.key == k';
          if b != bs[0] {
            assert b in r;
          }
        }
        if HasKey(r, k') {
          var b :| b in r && b.key == k';
          if b != r[0] {
            assert b in bs[1..];
          }
        }
      }
    } else {
      var tail := AddRow(bs[1..], k, v);
      AddRowKeys(bs[1..], k, v);
      assert r == [bs[0]] + tail;
      forall k' ensures HasKey(r, k') <==> k' == k || HasKey(bs, k') {
        if k' == k || HasKey(bs, k') {
          if k' == k || HasKey(bs[1..], k') {
            assert HasKey(tail, k');
            var c :| c in tail && c.key == k';
            assert c in r;
          } else {
            var b :| b in bs && b.key == k';
            assert r[0] == b;
          }
        }
        if HasKey(r, k') {
          var b :| b in r && b.key == k';
          if b == r[0] {
            assert bs[0] in bs;
          } else {
            assert b in tail;
            assert HasKey(tail, k');
            if k' != k {
              var c :| c in bs[1..] && c.key == k';
              assert c in bs;
            }
          }
        }
      }
      forall j | 0 < j < |r| ensures r[0].key != r[j].key {
        var b := r[j];
        assert b == tail[j - 1];
        assert HasKey(tail, b.key);
        if b.key != k {
          var c :| c in bs[1..] && c.key == b.key;
          var m :| 0 <= m < |bs[1..]| && bs[1..][m] == c;
          assert bs[m + 1] == c;
        }
      }
    }
  }

  /** Adding the row (k, v) keeps every bucket equal to the sum and count of its key. */
  lemma {:induction false} AddRowSummarizes<K>(bs: seq<Bucket<K>>, rows: seq<(K, int)>, k: K, v: int)
    requires DistinctKeys(bs) && Summarizes(bs, rows)
    requires !HasKey(bs, k) ==> CountFor(rows, k) == 0
    ensures Summarizes(AddRow(bs, k, v), [(k, v)] + rows)
  {
    var rows' := [(k, v)] + rows;
    assert rows'[1..] == rows;
    if bs == [] {
      ZeroCountZeroSum(rows, k);
    } else if bs[0].key == k {
      forall b | b in bs[1..] ensures b.key != k {
        var m :| 0 <= m < |bs[1..]| && bs[1..][m] == b;
        assert bs[m + 1] == b;
      }
    } else {
      if !HasKey(bs[1..], k) {
        forall b | b in bs ensures b.key != k {
          if b != bs[0] {
            assert b in bs[1..];
          }
        }
      }
      AddRowSummarizes(bs[1..], rows, k, v);
    }
  }

  /**
   * The grouping is correct: keys are distinct, each bucket holds the sum and
   * the count of the rows with its key, and a key has a bucket exactly when
   * some row carries it.
   */
  lemma {:induction false} AggregateCorrect<K>(rows: seq<(K, int)>)
    ensures DistinctKeys(Aggregate(rows))
    ensures Summarizes(Aggregate(rows), rows)
    ensures forall k :: HasKey(Aggregate(rows), k) <==> CountFor(rows, k) > 0
  {
    if rows != [] {
      var tail := rows[1..];
      var k, v := rows[0].0, rows[0].1;
      assert rows == [(k, v)] + tail;
      AggregateCorrect(tail);
      AddRowKeys(Aggregate(tail), k, v);
      AddRowSummarizes(Aggregate(tail), tail, k, v);
    }
  }
}
