/**
  The paging loop of the CSV/JSON export (`stream_table_text`, `build_select` in
  src-tauri/src/data_export.rs). It selects only the columns the user picked, so
  the key it pages by may be missing from the rows it gets back; then the key never
  advances. The loop is a turn function here because it need not end.
*/
module ExportPaging {
  import opened Text
  import opened TableCopy

  /** `key` is the column to page by, if the table has a usable one, and `want` the columns to export. */
  datatype Job = Job(table: seq<Row>, key: Option<string>, want: seq<string>, chunk: nat) {
    predicate Keyset() { key.Some? }

    /** The rows that come back carry the key. */
    predicate Selected() { key.Some? && key.value in want }
  }

  datatype Loop = Loop(written: seq<Row>, lastKey: Option<int>, offset: nat, finished: bool)

  function Suffix(t: seq<Row>, offset: nat): seq<Row> {
    if offset <= |t| then t[offset..] else []
  }

  function FirstOf(rows: seq<Row>, limit: nat): seq<Row> {
    if |rows| <= limit then rows else rows[..limit]
  }

  /** What the statement built from the loop's two variables returns. */
  function Select(j: Job, lastKey: Option<int>, offset: nat): seq<Row> {
    if !j.Keyset() then FirstOf(Suffix(j.table, offset), j.chunk)
    else Query(j.table, if lastKey.Some? then Above(lastKey.value) else Everything, None, j.chunk)
  }

  function Fetch(j: Job, s: Loop): seq<Row> {
    Select(j, s.lastKey, s.offset)
  }

  function Turn(j: Job, s: Loop): Loop {
    if s.finished then s
    else
      var batch := Fetch(j, s);
      if batch == [] then s.(finished := true)
      else Loop(
             s.written + batch,
             if j.Keyset() && j.Selected() then Some(batch[|batch| - 1].key) else s.lastKey,
             s.offset + |batch|,
             |batch| < j.chunk)
  }

  function After(j: Job, n: nat): Loop {
    if n == 0 then Loop([], None, 0, false) else Turn(j, After(j, n - 1))
  }

  ghost predicate Ends(j: Job) {
    exists n: nat :: After(j, n).finished
  }

  predicate ValidJob(j: Job) {
    Keyed(j.table) && j.chunk > 0
  }

  /** Rows written so far are the head of the table, and the next page starts right behind them. */
  predicate Aligned(j: Job, s: Loop) {
    && s.written <= j.table
    && (s.finished ==> s.written == j.table)
    && s.offset == |s.written|
    && (j.Keyset() ==> s.lastKey == if s.written == [] then None else Some(s.written[|s.written| - 1].key))
  }

  lemma FetchAligned(j: Job, s: Loop)
    requires ValidJob(j) && Aligned(j, s)
    ensures Fetch(j, s) == FirstOf(j.table[|s.written|..], j.chunk)
  {
    if j.Keyset() {
      MatchingAll(j.table, Everything, None);
      if s.written != [] {
        NextPage(j.table, Everything, None, |s.written|, s.written[|s.written| - 1].key);
      }
    }
  }

  lemma TurnAligned(j: Job, s: Loop)
    requires ValidJob(j) && (j.Keyset() ==> j.Selected()) && Aligned(j, s)
    ensures Aligned(j, Turn(j, s))
    ensures !s.finished && !Turn(j, s).finished ==> |Turn(j, s).written| > |s.written|
  {
    FetchAligned(j, s);
    var rest := j.table[|s.written|..];
    assert s.written + rest == j.table;
  }

  /** A first short page ends the loop whatever the key does. */
  lemma ShortTableEnds(j: Job)
    requires ValidJob(j) && |j.table| < j.chunk
    ensures After(j, 1).finished && After(j, 1).written == j.table
  {
    MatchingAll(j.table, Everything, None);
    assert j.table[0..] == j.table;
    assert After(j, 0) == Loop([], None, 0, false);
    assert [] + j.table == j.table;
  }

  lemma {:induction false} AlignedAfter(j: Job, n: nat)
    requires ValidJob(j) && (j.Keyset() ==> j.Selected())
    ensures Aligned(j, After(j, n))
    ensures After(j, n).finished || |After(j, n).written| >= n
  {
    if n > 0 {
      AlignedAfter(j, n - 1);
      TurnAligned(j, After(j, n - 1));
    }
  }

  /** With the key not exported and a full first page, every turn fetches that page again. */
  lemma {:induction false} StuckAfter(j: Job, n: nat)
    requires ValidJob(j) && j.Keyset() && !j.Selected() && |j.table| >= j.chunk
    ensures !After(j, n).finished && After(j, n).lastKey.None?
    ensures |After(j, n).written| == n * j.chunk
  {
    if n > 0 {
      StuckAfter(j, n - 1);
      MatchingAll(j.table, Everything, None);
      assert n * j.chunk == (n - 1) * j.chunk + j.chunk;
    }
  }

  /**
    The export ends exactly when there is no key column, or the key column is
    exported, or the whole table fits in less than one page.
  */
  lemma EndsIff(j: Job)
    requires ValidJob(j)
    ensures Ends(j) <==> !j.Keyset() || j.Selected() || |j.table| < j.chunk
  {
    if |j.table| < j.chunk {
      ShortTableEnds(j);
    } else if !j.Keyset() || j.Selected() {
      AlignedAfter(j, |j.table| + 1);
      assert After(j, |j.table| + 1).finished;
    } else {
      forall n: nat ensures !After(j, n).finished {
        StuckAfter(j, n);
      }
    }
  }

  /** And whenever it ends, it has written the table: every row once, in key order. */
  lemma EndsComplete(j: Job, n: nat)
    requires ValidJob(j) && After(j, n).finished
    ensures After(j, n).written == j.table
  {
    if !j.Keyset() || j.Selected() {
      AlignedAfter(j, n);
    } else if |j.table| >= j.chunk {
      StuckAfter(j, n);
    } else {
      ShortTableEnds(j);
      FinishedStays(j, n);
    }
  }

  lemma {:induction false} FinishedStays(j: Job, n: nat)
    requires After(j, 1).finished && n > 0
    ensures After(j, n) == After(j, 1)
  {
    if n > 1 {
      FinishedStays(j, n - 1);
    }
  }
}
