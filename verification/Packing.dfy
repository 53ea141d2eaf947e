/**
  Packing rows into extended inserts (`run_table_copy` and `copy_pk_range` in
  src-tauri/src/data_transfer.rs, `write_batch` in src-tauri/src/sql_dump.rs): rows
  go into the current statement while it stays within `maxBytes`. Both writers
  separate rows with two bytes; the dump writer ends a statement with `;\n\n`.
*/
module Packing {
  import opened Text

  /** The greedy grouping: `cur` is in the statement being built. */
  function Pack(prefix: string, sep: string, cur: seq<string>, rows: seq<string>, maxBytes: nat): seq<seq<string>>
    decreases |rows|
  {
    if rows == [] then if cur == [] then [] else [cur]
    else if cur != [] && |prefix + Join(cur, sep)| + 2 + |rows[0]| > maxBytes then
      [cur] + Pack(prefix, sep, [rows[0]], rows[1..], maxBytes)
    else
      Pack(prefix, sep, cur + [rows[0]], rows[1..], maxBytes)
  }

  function Statements(prefix: string, sep: string, end: string, groups: seq<seq<string>>): (r: seq<string>)
    ensures |r| == |groups|
    ensures forall k :: 0 <= k < |r| ==> r[k] == prefix + Join(groups[k], sep) + end
  {
    if groups == [] then []
    else [prefix + Join(groups[0], sep) + end] + Statements(prefix, sep, end, groups[1..])
  }

  lemma StatementsAppend(prefix: string, sep: string, end: string, a: seq<seq<string>>, b: seq<seq<string>>)
    ensures Statements(prefix, sep, end, a + b) == Statements(prefix, sep, end, a) + Statements(prefix, sep, end, b)
  {
  }

  /** The extended-insert loop, row by row, with one reused text buffer. */
  method WritePacked(prefix: string, sep: string, end: string, rows: seq<string>, maxBytes: nat)
    returns (sent: seq<string>)
    requires |sep| == 2
    ensures sent == Statements(prefix, sep, end, Pack(prefix, sep, [], rows, maxBytes))
  {
    sent := [];
    var sql := prefix;
    var rowsInBuf := 0;
    ghost var cur: seq<string> := [];
    ghost var done: seq<seq<string>> := [];
    ghost var all := Pack(prefix, sep, [], rows, maxBytes);
    assert prefix + "" == prefix;
    assert [] + all == all;
    for k := 0 to |rows|
      invariant rowsInBuf == |cur| && sql == prefix + Join(cur, sep)
      invariant sent == Statements(prefix, sep, end, done)
      invariant done + Pack(prefix, sep, cur, rows[k..], maxBytes) == all
    {
      var row := rows[k];
      assert rows[k..][0] == row && rows[k..][1..] == rows[k + 1..];
      if rowsInBuf > 0 && |sql| + 2 + |row| > maxBytes {
        StatementsAppend(prefix, sep, end, done, [cur]);
        assert Statements(prefix, sep, end, [cur]) == [sql + end];
        Assoc(done, [cur], Pack(prefix, sep, [row], rows[k + 1..], maxBytes));
        sent := sent + [sql + end];
        done := done + [cur];
        sql, rowsInBuf, cur := prefix, 0, [];
        assert prefix + "" == prefix;
      }
      if rowsInBuf > 0 {
        JoinSnoc(cur, row, sep);
        assert prefix + (Join(cur, sep) + sep + row) == prefix + Join(cur, sep) + sep + row;
        sql := sql + sep;
      }
      assert [] + [row] == [row];
      sql := sql + row;
      rowsInBuf, cur := rowsInBuf + 1, cur + [row];
    }
    if rowsInBuf > 0 {
      StatementsAppend(prefix, sep, end, done, [cur]);
      assert Statements(prefix, sep, end, [cur]) == [sql + end];
      sent := sent + [sql + end];
    } else {
      assert done + [] == done;
    }
  }

  /**
    Packing partitions the rows: in order, none lost, none twice, no empty
    statement; a statement with two or more rows is within the cap; and a statement
    is closed only when the next row would have exceeded it.
  */
  lemma {:induction false} PackPartitions(
      prefix: string, sep: string, cur: seq<string>, rows: seq<string>, maxBytes: nat)
    requires |sep| == 2
    requires |cur| > 1 ==> |prefix + Join(cur, sep)| <= maxBytes
    ensures var g := Pack(prefix, sep, cur, rows, maxBytes);
            && Flatten(g) == cur + rows
            && (forall k :: 0 <= k < |g| ==> g[k] != [])
            && (forall k :: 0 <= k < |g| && |g[k]| > 1 ==> |prefix + Join(g[k], sep)| <= maxBytes)
            && (forall k :: 0 <= k < |g| - 1 ==> |prefix + Join(g[k], sep)| + 2 + |g[k + 1][0]| > maxBytes)
            && (cur + rows != [] ==> g != [] && g[0][0] == (cur + rows)[0])
    decreases |rows|
  {
    var g := Pack(prefix, sep, cur, rows, maxBytes);
    if rows == [] {
      assert cur + rows == cur;
      assert cur != [] ==> g[1..] == [];
    } else {
      var row, rest := rows[0], rows[1..];
      assert rows == [row] + rest;
      if cur != [] && |prefix + Join(cur, sep)| + 2 + |row| > maxBytes {
        var tail := Pack(prefix, sep, [row], rest, maxBytes);
        PackPartitions(prefix, sep, [row], rest, maxBytes);
        assert g == [cur] + tail && g[1..] == tail;
      } else {
        if cur != [] {
          JoinSnoc(cur, row, sep);
        }
        PackPartitions(prefix, sep, cur + [row], rest, maxBytes);
        Assoc(cur, [row], rest);
      }
    }
  }

  // ---------------------------------------------------- leaving out generated columns

  /** The kept entries of a row or of the column list. */
  function Kept<T>(xs: seq<T>, keep: seq<bool>): seq<T> {
    if xs == [] || keep == [] then []
    else (if keep[0] then [xs[0]] else []) + Kept(xs[1..], keep[1..])
  }

  function KeepMask(columns: seq<string>, generated: set<string>): (keep: seq<bool>)
    ensures |keep| == |columns|
  {
    seq(|columns|, i requires 0 <= i < |columns| => columns[i] !in generated)
  }

  /** Where the `n`-th kept entry comes from. */
  function Origin(keep: seq<bool>, n: nat): nat {
    if keep == [] then 0
    else if keep[0] then if n == 0 then 0 else 1 + Origin(keep[1..], n - 1)
    else 1 + Origin(keep[1..], n)
  }

  /** Masking a list picks the entries at the origins, and those depend on the mask alone. */
  lemma {:induction false} KeptAt<T>(xs: seq<T>, keep: seq<bool>, n: nat)
    requires |xs| == |keep| && n < |Kept(xs, keep)|
    ensures Origin(keep, n) < |xs| && keep[Origin(keep, n)] && Kept(xs, keep)[n] == xs[Origin(keep, n)]
  {
    if keep[0] {
      if n > 0 {
        KeptAt(xs[1..], keep[1..], n - 1);
      }
    } else {
      KeptAt(xs[1..], keep[1..], n);
    }
  }

  lemma {:induction false} KeptLength<A, B>(xs: seq<A>, ys: seq<B>, keep: seq<bool>)
    requires |xs| == |ys| == |keep|
    ensures |Kept(xs, keep)| == |Kept(ys, keep)|
  {
    if xs != [] {
      KeptLength(xs[1..], ys[1..], keep[1..]);
    }
  }

  /**
    With generated columns masked, the tuple has one value per listed column, the
    n-th value is the row's value for the n-th listed column, and no listed column
    is generated.
  */
  lemma TupleLinesUp<T>(columns: seq<string>, generated: set<string>, row: seq<T>)
    requires |row| == |columns|
    ensures var keep := KeepMask(columns, generated);
            var cols, vals := Kept(columns, keep), Kept(row, keep);
            && |vals| == |cols|
            && forall n :: 0 <= n < |cols| ==>
                 var i := Origin(keep, n);
                 i < |columns| && cols[n] == columns[i] && vals[n] == row[i] && cols[n] !in generated
  {
    var keep := KeepMask(columns, generated);
    KeptLength(columns, row, keep);
    forall n | 0 <= n < |Kept(columns, keep)|
      ensures var i := Origin(keep, n);
              && i < |columns| && Kept(columns, keep)[n] == columns[i] && Kept(row, keep)[n] == row[i]
              && columns[i] !in generated
    {
      KeptAt(columns, keep, n);
      KeptAt(row, keep, n);
    }
  }

  /** Every column that is not generated is listed: the mask drops nothing else. */
  lemma {:induction false} NothingElseDropped(columns: seq<string>, generated: set<string>, c: string)
    ensures c in Kept(columns, KeepMask(columns, generated)) <==> c in columns && c !in generated
  {
    if columns != [] {
      assert KeepMask(columns, generated)[1..] == KeepMask(columns[1..], generated);
      NothingElseDropped(columns[1..], generated, c);
    }
  }
}
