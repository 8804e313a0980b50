/**
 * Query results as the connectors hand them to callers: a frame of rows with
 * an integer `id` and named cells, the newest-first window that `ORDER BY id
 * DESC` with a row limit selects, and the read-side cleaning step that drops
 * rows repeating an earlier row in every column except `id`.
 */
module Frames {
  import opened Fields

  /** The cells of one row, keyed by column name: every column except `id`. */
  type Cells = map<string, Value>

  datatype Row = Row(id: int, cells: Cells)

  /** A query result: its column names and its rows. */
  datatype Frame = Frame(columns: seq<string>, rows: seq<Row>)

  /** `pd.DataFrame()`: no columns and no rows, what a failed read returns. */
  const EmptyFrame := Frame([], [])

  predicate IdsAscending(rows: seq<Row>) {
    forall i, j :: 0 <= i < j < |rows| ==> rows[i].id < rows[j].id
  }

  predicate IdsDescending(rows: seq<Row>) {
    forall i, j :: 0 <= i < j < |rows| ==> rows[i].id > rows[j].id
  }

  predicate UniqueIds(rows: seq<Row>) {
    forall i, j :: 0 <= i < |rows| && 0 <= j < |rows| && i != j ==> rows[i].id != rows[j].id
  }

  /** The `k` last rows of `rows`, last first: `ORDER BY id DESC` with a limit of `k` on a table kept in id order. */
  function Newest(rows: seq<Row>, k: nat): (r: seq<Row>)
    requires k <= |rows|
    ensures |r| == k
    ensures forall i :: 0 <= i < k ==> r[i] == rows[|rows| - 1 - i]
  {
    seq(k, i requires 0 <= i < k => rows[|rows| - 1 - i])
  }

  /**
   * On a table kept in ascending id order, the window is in strictly
   * descending id order, holds only table rows, and every row it leaves out
   * is older than every row it keeps.
   */
  lemma NewestAreTopIds(rows: seq<Row>, k: nat)
    requires IdsAscending(rows) && k <= |rows|
    ensures IdsDescending(Newest(rows, k))
    ensures forall x :: x in Newest(rows, k) ==> x in rows
    ensures forall i, j :: 0 <= i < k && 0 <= j < |rows| - k ==> rows[j].id < Newest(rows, k)[i].id
  {
    var r := Newest(rows, k);
    forall x | x in r ensures x in rows {
      var i :| 0 <= i < k && r[i] == x;
      assert rows[|rows| - 1 - i] == x;
    }
  }

  // ---- subsequences ----

  /** `a` is obtained from `b` by deleting elements, keeping the order of the rest. */
  predicate IsSubsequence<T(==)>(a: seq<T>, b: seq<T>)
    decreases |b|
  {
    a == [] ||
    (b != [] &&
     ((a[|a| - 1] == b[|b| - 1] && IsSubsequence(a[..|a| - 1], b[..|b| - 1]))
      || IsSubsequence(a, b[..|b| - 1])))
  }

  /** A subsequence is no longer than its source and holds only its elements. */
  lemma {:induction false} SubsequenceMembers<T>(a: seq<T>, b: seq<T>)
    requires IsSubsequence(a, b)
    ensures |a| <= |b|
    ensures forall x :: x in a ==> x in b
    decreases |b|
  {
    if a == [] {
    } else if a[|a| - 1] == b[|b| - 1] && IsSubsequence(a[..|a| - 1], b[..|b| - 1]) {
      SubsequenceMembers(a[..|a| - 1], b[..|b| - 1]);
      assert a == a[..|a| - 1] + [b[|b| - 1]] && b == b[..|b| - 1] + [b[|b| - 1]];
    } else {
      SubsequenceMembers(a, b[..|b| - 1]);
    }
  }

  /** Deleting rows keeps a strictly descending id order. */
  lemma {:induction false} SubsequenceDescending(a: seq<Row>, b: seq<Row>)
    requires IsSubsequence(a, b) && IdsDescending(b)
    ensures IdsDescending(a)
    decreases |b|
  {
    if a == [] {
    } else if a[|a| - 1] == b[|b| - 1] && IsSubsequence(a[..|a| - 1], b[..|b| - 1]) {
      var a', b' := a[..|a| - 1], b[..|b| - 1];
      SubsequenceDescending(a', b');
      SubsequenceMembers(a', b');
      forall i, j | 0 <= i < j < |a| ensures a[i].id > a[j].id {
        if j == |a| - 1 {
          assert a[i] in a';
          var m :| 0 <= m < |b'| && b'[m] == a[i];
          assert b[m] == a[i];
        } else {
          assert a[i] == a'[i] && a[j] == a'[j];
        }
      }
    } else {
      SubsequenceDescending(a, b[..|b| - 1]);
    }
  }

  // ---- duplicate removal ----

  /** The distinct cell maps occurring in `rows`. */
  function CellsOf(rows: seq<Row>): set<Cells> {
    set r | r in rows :: r.cells
  }

  /** No two rows agree on every column except `id`. */
  predicate DistinctCells(rows: seq<Row>) {
    forall i, j :: 0 <= i < j < |rows| ==> rows[i].cells != rows[j].cells
  }

  lemma CellsOfSnoc(rows: seq<Row>, x: Row)
    ensures CellsOf(rows + [x]) == CellsOf(rows) + {x.cells}
  {
    assert forall r :: r in rows + [x] <==> r in rows || r == x;
  }

  /**
   * `drop_duplicates(subset=[every column but id])`, keeping the first row of
   * each group. No two result rows agree off `id`, every cell map of the input
   * is still represented, and nothing is added.
   */
  function DropDuplicates(rows: seq<Row>): (out: seq<Row>)
    ensures |out| <= |rows|
    ensures CellsOf(out) == CellsOf(rows)
    ensures DistinctCells(out)
    decreases |rows|
  {
    if rows == [] then []
    else
      var init, last := rows[..|rows| - 1], rows[|rows| - 1];
      assert rows == init + [last];
      CellsOfSnoc(init, last);
      var kept := DropDuplicates(init);
      if last.cells in CellsOf(init) then kept
      else
        CellsOfSnoc(kept, last);
        assert forall i :: 0 <= i < |kept| ==> kept[i].cells in CellsOf(kept);
        kept + [last]
  }

  /** The cleaned rows are the input with some rows deleted and the rest in their original order. */
  lemma {:induction false} DropDuplicatesIsSubsequence(rows: seq<Row>)
    ensures IsSubsequence(DropDuplicates(rows), rows)
    decreases |rows|
  {
    if rows != [] {
      var init, last := rows[..|rows| - 1], rows[|rows| - 1];
      DropDuplicatesIsSubsequence(init);
      var kept := DropDuplicates(init);
      if last.cells !in CellsOf(init) {
        assert (kept + [last])[..|kept|] == kept;
      } else {
        SubsequenceAppend(kept, init);
      }
    }
  }

  /** The first row of each group of duplicates is kept. */
  lemma {:induction false} DropDuplicatesKeepsFirst(rows: seq<Row>, i: nat)
    requires i < |rows| && rows[i].cells !in CellsOf(rows[..i])
    ensures rows[i] in DropDuplicates(rows)
    decreases |rows|
  {
    var init, last := rows[..|rows| - 1], rows[|rows| - 1];
    if i < |rows| - 1 {
      assert init[..i] == rows[..i];
      DropDuplicatesKeepsFirst(init, i);
    } else {
      assert rows[..i] == init;
    }
  }

  /** When ids are unique, every later row of a group of duplicates is dropped. */
  lemma {:induction false} DropDuplicatesDropsLater(rows: seq<Row>, i: nat)
    requires UniqueIds(rows)
    requires i < |rows| && rows[i].cells in CellsOf(rows[..i])
    ensures rows[i] !in DropDuplicates(rows)
    decreases |rows|
  {
    var init, last := rows[..|rows| - 1], rows[|rows| - 1];
    var kept := DropDuplicates(init);
    DropDuplicatesIsSubsequence(init);
    SubsequenceMembers(kept, init);
    if i < |rows| - 1 {
      assert init[..i] == rows[..i];
      DropDuplicatesDropsLater(init, i);
      assert rows[i].id != last.id;
    } else {
      assert rows[..i] == init;
      assert forall m :: 0 <= m < |init| ==> init[m].id != last.id;
      assert last !in init;
    }
  }

  /** Rows that are already free of duplicates are left as they are. */
  lemma {:induction false} DropDuplicatesOfDistinct(rows: seq<Row>)
    requires DistinctCells(rows)
    ensures DropDuplicates(rows) == rows
    decreases |rows|
  {
    if rows != [] {
      var init, last := rows[..|rows| - 1], rows[|rows| - 1];
      DropDuplicatesOfDistinct(init);
      assert rows == init + [last];
    }
  }

  /** Cleaning twice is cleaning once. */
  lemma DropDuplicatesIdempotent(rows: seq<Row>)
    ensures DropDuplicates(DropDuplicates(rows)) == DropDuplicates(rows)
  {
    DropDuplicatesOfDistinct(DropDuplicates(rows));
  }

  lemma {:induction false} SubsequenceAppend<T>(a: seq<T>, b: seq<T>)
    requires IsSubsequence(a, b)
    ensures forall x :: IsSubsequence(a, b + [x])
  {
    forall x ensures IsSubsequence(a, b + [x]) {
      assert (b + [x])[..|b|] == b;
    }
  }
}
