/** GROUP BY with count(*), the dicts built from its rows, and the sums they keep or lose. */
module Grouping {

  datatype Row<K> = Row(key: K, count: nat)

  /** The rows of SELECT key, count(*) .. GROUP BY key over a table with these keys: one row per key
      present, in any order the database likes. */
  ghost predicate IsGroupBy<K>(keys: multiset<K>, rows: seq<Row<K>>) {
    && (forall i, j :: 0 <= i < j < |rows| ==> rows[i].key != rows[j].key)
    && (forall i :: 0 <= i < |rows| ==> rows[i].count == keys[rows[i].key] > 0)
    && (forall k :: k in keys ==> exists i :: 0 <= i < |rows| && rows[i].key == k)
  }

  function SumCounts<K>(rows: seq<Row<K>>): nat {
    if rows == [] then 0 else SumCounts(rows[..|rows| - 1]) + rows[|rows| - 1].count
  }

  /** The counts of a GROUP BY add up to the size of the table. */
  lemma {:induction false} GroupByTotal<K>(keys: multiset<K>, rows: seq<Row<K>>)
    requires IsGroupBy(keys, rows)
    ensures SumCounts(rows) == |keys|
  {
    if rows == [] {
      assert keys == multiset{};
    } else {
      var before, last := rows[..|rows| - 1], rows[|rows| - 1];
      var fewer := keys[last.key := 0];
      assert |keys| == |fewer| + keys[last.key];
      forall k | k in fewer ensures exists i :: 0 <= i < |before| && before[i].key == k {
        assert k in keys;
        var i :| 0 <= i < |rows| && rows[i].key == k;
        assert before[i].key == k;
      }
      GroupByTotal(fewer, before);
    }
  }

  /** `{r["k"]: r["c"] for r in rows}`: a repeated key keeps the last value. */
  function DictOf(rows: seq<Row<string>>): map<string, nat> {
    if rows == [] then map[] else DictOf(rows[..|rows| - 1])[rows[|rows| - 1].key := rows[|rows| - 1].count]
  }

  ghost function SumValues<K>(m: map<K, nat>): nat {
    if m == map[] then 0 else var k :| k in m; m[k] + SumValues(m - {k})
  }

  lemma {:induction false} SumRemove<K>(m: map<K, nat>, k: K)
    requires k in m
    ensures SumValues(m) == m[k] + SumValues(m - {k})
    decreases |m|
  {
    var c :| c in m && SumValues(m) == m[c] + SumValues(m - {c});
    if c != k {
      SumRemove(m - {c}, k);
      SumRemove(m - {k}, c);
      assert m - {c} - {k} == m - {k} - {c};
    }
  }

  lemma SumUpdate<K>(m: map<K, nat>, k: K, v: nat)
    ensures SumValues(m[k := v]) == SumValues(m) - (if k in m then m[k] else 0) + v
  {
    SumRemove(m[k := v], k);
    assert m[k := v] - {k} == m - {k};
    if k in m {
      SumRemove(m, k);
    } else {
      assert m - {k} == m;
    }
  }

  ghost predicate DistinctKeys(rows: seq<Row<string>>) {
    forall i, j :: 0 <= i < j < |rows| ==> rows[i].key != rows[j].key
  }

  ghost predicate HasKey(rows: seq<Row<string>>, k: string) {
    exists i :: 0 <= i < |rows| && rows[i].key == k
  }

  lemma {:induction false} DictKeys(rows: seq<Row<string>>)
    requires forall i :: 0 <= i < |rows| ==> rows[i].count > 0
    ensures forall k :: k in DictOf(rows) <==> HasKey(rows, k)
    ensures forall k :: k in DictOf(rows) ==> DictOf(rows)[k] > 0
  {
    if rows == [] {
    } else {
      var before, last := rows[..|rows| - 1], rows[|rows| - 1];
      DictKeys(before);
      forall k ensures HasKey(rows, k) <==> HasKey(before, k) || k == last.key {
        if HasKey(rows, k) {
          var i :| 0 <= i < |rows| && rows[i].key == k;
          assert i < |before| ==> before[i].key == k;
        }
        if HasKey(before, k) {
          var i :| 0 <= i < |before| && before[i].key == k;
          assert rows[i].key == k;
        }
        assert rows[|before|] == last;
      }
    }
  }

  lemma DistinctByPrefix(rows: seq<Row<string>>)
    requires rows != []
    ensures DistinctKeys(rows) <==>
            DistinctKeys(rows[..|rows| - 1]) && !HasKey(rows[..|rows| - 1], rows[|rows| - 1].key)
  {
    var before, last := rows[..|rows| - 1], rows[|rows| - 1];
    if DistinctKeys(before) && !HasKey(before, last.key) {
      assert forall i :: 0 <= i < |before| ==> before[i].key != last.key;
    }
    forall i | 0 <= i < |before| && before[i].key == last.key ensures !DistinctKeys(rows) {
      assert rows[i].key == rows[|rows| - 1].key;
    }
  }

  /** A dict built from positive counts keeps their sum exactly when no key repeats. */
  lemma {:induction false} DictKeepsSumIff(rows: seq<Row<string>>)
    requires forall i :: 0 <= i < |rows| ==> rows[i].count > 0
    ensures SumValues(DictOf(rows)) <= SumCounts(rows)
    ensures SumValues(DictOf(rows)) == SumCounts(rows) <==> DistinctKeys(rows)
  {
    if rows == [] {
    } else {
      var before, last := rows[..|rows| - 1], rows[|rows| - 1];
      DictKeepsSumIff(before);
      DictKeys(before);
      DistinctByPrefix(rows);
      SumUpdate(DictOf(before), last.key, last.count);
    }
  }

  /** With distinct keys the dict is the table's own count of each key. */
  lemma {:induction false} DictIsCounts(rows: seq<Row<string>>)
    requires DistinctKeys(rows)
    ensures forall i :: 0 <= i < |rows| ==> rows[i].key in DictOf(rows) && DictOf(rows)[rows[i].key] == rows[i].count
  {
    if rows == [] {
    } else {
      DictIsCounts(rows[..|rows| - 1]);
    }
  }

  lemma GroupByDict(keys: multiset<string>, rows: seq<Row<string>>)
    requires IsGroupBy(keys, rows)
    ensures forall k :: k in DictOf(rows) <==> k in keys
    ensures forall k :: k in keys ==> DictOf(rows)[k] == keys[k]
    ensures SumValues(DictOf(rows)) == |keys|
  {
    DictKeys(rows);
    DictKeepsSumIff(rows);
    DictIsCounts(rows);
    GroupByTotal(keys, rows);
    forall k ensures HasKey(rows, k) <==> k in keys {
      if k in keys {
        var i :| 0 <= i < |rows| && rows[i].key == k;
      }
    }
  }
}
