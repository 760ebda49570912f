/**
 * Merging the freshly collected rows with the previously saved table:
 * concatenate, drop rows equal in every column, sort by upload time, newest first.
 */
module Merger {
  import opened Wrappers
  import opened Records

  /** No two rows of the table are equal in every column. */
  predicate NoDuplicates(rows: seq<Row>)
  {
    forall i, j | 0 <= i < j < |rows| :: rows[i] != rows[j]
  }

  /** Upload times never increase along the table. */
  predicate Descending(rows: seq<Row>)
  {
    forall i, j | 0 <= i < j < |rows| :: rows[i].uploadedAt >= rows[j].uploadedAt
  }

  /** The saved table, or the empty table of the same columns when there is no saved file. */
  function Prior(saved: Option<seq<Row>>): seq<Row>
  {
    match saved
    case None => []
    case Some(rows) => rows
  }

  /** Keeps the first occurrence of every row. */
  function DropDuplicates(rows: seq<Row>): (kept: seq<Row>)
    ensures NoDuplicates(kept)
    ensures forall r :: r in kept <==> r in rows
    ensures |kept| <= |rows|
  {
    if rows == [] then []
    else
      var last := rows[|rows| - 1];
      var before := DropDuplicates(rows[..|rows| - 1]);
      assert forall r :: r in rows <==> r in rows[..|rows| - 1] || r == last by {
        assert rows == rows[..|rows| - 1] + [last];
      }
      if last in before then before else before + [last]
  }

  /** A table without duplicate rows is left as it is. */
  lemma {:induction false} DropDuplicatesOfDistinct(rows: seq<Row>)
    requires NoDuplicates(rows)
    ensures DropDuplicates(rows) == rows
  {
    if rows != [] {
      var n := |rows| - 1;
      DropDuplicatesOfDistinct(rows[..n]);
      assert rows[n] !in rows[..n];
      assert rows[..n] + [rows[n]] == rows;
    }
  }

  /** Places `row` before the first row uploaded no later than it. */
  function InsertByUploadedAt(row: Row, sorted: seq<Row>): (result: seq<Row>)
    requires Descending(sorted)
    ensures Descending(result)
    ensures multiset(result) == multiset(sorted) + multiset{row}
    ensures |result| > 0 && (result[0] == row || (|sorted| > 0 && result[0] == sorted[0]))
  {
    if sorted == [] || sorted[0].uploadedAt <= row.uploadedAt then [row] + sorted
    else
      var rest := InsertByUploadedAt(row, sorted[1..]);
      assert sorted == [sorted[0]] + sorted[1..];
      [sorted[0]] + rest
  }

  /** A reordering of the rows by upload time, newest first; rows uploaded together come in no promised order. */
  function SortByUploadedAt(rows: seq<Row>): (sorted: seq<Row>)
    ensures Descending(sorted)
    ensures multiset(sorted) == multiset(rows)
  {
    if rows == [] then []
    else
      assert rows == [rows[0]] + rows[1..];
      InsertByUploadedAt(rows[0], SortByUploadedAt(rows[1..]))
  }

  /** Without duplicates, every row occurs exactly once. */
  lemma {:induction false} DistinctCounts(rows: seq<Row>)
    ensures NoDuplicates(rows) <==> forall r :: multiset(rows)[r] <= 1
  {
    if rows != [] {
      var n := |rows| - 1;
      var prefix := rows[..n];
      DistinctCounts(prefix);
      assert rows == prefix + [rows[n]];
      if NoDuplicates(rows) {
        assert NoDuplicates(prefix);
        forall k | 0 <= k < n
          ensures prefix[k] != rows[n]
        {
          assert rows[k] != rows[n];
        }
        assert rows[n] !in prefix;
      }
      if forall r :: multiset(rows)[r] <= 1 {
        assert forall r :: multiset(prefix)[r] <= multiset(rows)[r];
        assert multiset(prefix)[rows[n]] == 0;
        forall i, j | 0 <= i < j < |rows|
          ensures rows[i] != rows[j]
        {
          if j == n {
            assert rows[i] in prefix;
          } else {
            assert prefix[i] == rows[i] && prefix[j] == rows[j];
          }
        }
      }
    }
  }

  /** Reordering keeps a table free of duplicates. */
  lemma DistinctPermutation(a: seq<Row>, b: seq<Row>)
    requires NoDuplicates(a) && multiset(a) == multiset(b)
    ensures NoDuplicates(b)
  {
    DistinctCounts(a);
    DistinctCounts(b);
  }

  /** Two duplicate-free tables with the same rows are reorderings of each other. */
  lemma SameRowsSameMultiset(a: seq<Row>, b: seq<Row>)
    requires NoDuplicates(a) && NoDuplicates(b)
    requires forall r :: r in a <==> r in b
    ensures multiset(a) == multiset(b)
    ensures |a| == |b|
  {
    DistinctCounts(a);
    DistinctCounts(b);
    forall r
      ensures multiset(a)[r] == multiset(b)[r]
    {
      assert r in a <==> r in multiset(a);
      assert r in b <==> r in multiset(b);
    }
    assert multiset(a) == multiset(b);
    assert |multiset(a)| == |a| && |multiset(b)| == |b|;
  }

  lemma SortedKeepsRows(unique: seq<Row>, sorted: seq<Row>)
    requires NoDuplicates(unique) && multiset(sorted) == multiset(unique)
    ensures NoDuplicates(sorted)
    ensures forall r :: r in sorted <==> r in unique
  {
    DistinctPermutation(unique, sorted);
    forall r
      ensures r in sorted <==> r in unique
    {
      assert r in sorted <==> r in multiset(sorted);
      assert r in unique <==> r in multiset(unique);
    }
  }

  /** The merged table and the count of rows it gained over the saved one. */
  datatype Merged = Merged(table: seq<Row>, newMatches: int)

  /**
   * Concatenates the saved table (empty when there is none) with the new rows,
   * drops rows equal in every column, and sorts by upload time, newest first.
   */
  function Merge(saved: Option<seq<Row>>, batch: seq<Row>): (merged: Merged)
    ensures forall r :: r in merged.table <==> r in Prior(saved) || r in batch
    ensures NoDuplicates(merged.table)
    ensures Descending(merged.table)
    ensures merged.newMatches == |merged.table| - |Prior(saved)|
  {
    var prior := Prior(saved);
    var unique := DropDuplicates(prior + batch);
    var sorted := SortByUploadedAt(unique);
    SortedKeepsRows(unique, sorted);
    Merged(sorted, |sorted| - |prior|)
  }

  /**
   * New rows that the saved, duplicate-free table already holds change nothing:
   * the merge keeps the same rows and reports no new match.
   */
  lemma MergeAbsorbed(prior: seq<Row>, batch: seq<Row>)
    requires NoDuplicates(prior)
    requires forall r :: r in batch ==> r in prior
    ensures Merge(Some(prior), batch).newMatches == 0
    ensures multiset(Merge(Some(prior), batch).table) == multiset(prior)
  {
    SameRowsSameMultiset(Merge(Some(prior), batch).table, prior);
  }

  /** Running the merge again with the same new rows reports no new match and keeps the rows. */
  lemma RerunAddsNothing(saved: Option<seq<Row>>, batch: seq<Row>)
    ensures Merge(Some(Merge(saved, batch).table), batch).newMatches == 0
    ensures multiset(Merge(Some(Merge(saved, batch).table), batch).table) == multiset(Merge(saved, batch).table)
  {
    MergeAbsorbed(Merge(saved, batch).table, batch);
  }

  /** Merging a duplicate-free table with itself gives back its rows and no new match. */
  lemma MergeWithItself(rows: seq<Row>)
    requires NoDuplicates(rows)
    ensures Merge(Some(rows), rows).newMatches == 0
    ensures multiset(Merge(Some(rows), rows).table) == multiset(rows)
  {
    MergeAbsorbed(rows, rows);
  }

  /**
   * The order of saved and new rows does not change which rows the merged table
   * holds; the two results differ at most in the order of rows uploaded together.
   */
  lemma MergeOrderIndependent(a: seq<Row>, b: seq<Row>)
    ensures multiset(Merge(Some(a), b).table) == multiset(Merge(Some(b), a).table)
  {
    SameRowsSameMultiset(Merge(Some(a), b).table, Merge(Some(b), a).table);
  }
}
