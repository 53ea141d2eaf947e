/**
  Dumping one table in shards (`dump_pk_range_to_temp`, src-tauri/src/sql_dump.rs):
  cutting its rows into pages and key ranges moves the boundaries between INSERTs,
  never a row.
*/
module Sharding {
  import opened Text
  import opened PkRanges
  import opened TableCopy
  import opened DumpWriter

  /** How a table's row turns into the values that are printed. */
  type Reading = Row -> seq<Value>

  function Read(value: Reading, rows: seq<Row>): (r: seq<seq<Value>>)
    ensures |r| == |rows| && forall i :: 0 <= i < |r| ==> r[i] == value(rows[i])
  {
    seq(|rows|, i requires 0 <= i < |rows| => value(rows[i]))
  }

  /** The rows of all the INSERTs written for some pages, in the order they are written. */
  function Written(b: Batch, style: Style, value: Reading, pages: seq<seq<Row>>): seq<string> {
    if pages == [] then []
    else Flatten(Groups(b.(rows := Read(value, pages[0])), style)) + Written(b, style, value, pages[1..])
  }

  lemma TextsAppend(b: Batch, style: Style, x: seq<seq<Value>>, y: seq<seq<Value>>)
    ensures RowTexts(b.(rows := x + y), style) == RowTexts(b.(rows := x), style) + RowTexts(b.(rows := y), style)
  {
  }

  lemma ReadAppend(value: Reading, x: seq<Row>, y: seq<Row>)
    ensures Read(value, x + y) == Read(value, x) + Read(value, y)
  {
  }

  /** However the rows are cut into pages, the INSERTs hold the texts of all of them, in order. */
  lemma {:induction false} PagesDoNotShow(b: Batch, style: Style, value: Reading, pages: seq<seq<Row>>)
    ensures Written(b, style, value, pages) == RowTexts(b.(rows := Read(value, Flatten(pages))), style)
  {
    if pages == [] {
      assert Read(value, []) == [];
    } else {
      hide RowTexts, Groups, Read;
      var first, rest := Read(value, pages[0]), Read(value, Flatten(pages[1..]));
      GroupsPartition(b.(rows := first), style);
      PagesDoNotShow(b, style, value, pages[1..]);
      ReadAppend(value, pages[0], Flatten(pages[1..]));
      TextsAppend(b, style, first, rest);
    }
  }

  /** Each shard's pages hold the rows of its key range. */
  predicate Covers(t: seq<Row>, rs: seq<Range>, shards: seq<seq<seq<Row>>>) {
    |shards| == |rs|
    && forall w :: 0 <= w < |rs| ==> Flatten(shards[w]) == Matching(t, AtLeast(rs[w].low), Some(rs[w].high))
  }

  lemma {:induction false} ShardsHold(t: seq<Row>, rs: seq<Range>, shards: seq<seq<seq<Row>>>)
    requires Covers(t, rs, shards)
    ensures Flatten(Flatten(shards)) == Shares(t, rs)
  {
    if rs != [] {
      hide Matching;
      ShardsHold(t, rs[1..], shards[1..]);
      FlattenAppend(shards[0], Flatten(shards[1..]));
    }
  }

  /**
    With intra-table sharding the INSERTs of the merged dump hold the same rows, in
    the same order, as the INSERTs of the serial dump, for any tiling of the keys
    and any paging on either side.
  */
  lemma ShardedRowsAreSerial(
      b: Batch, style: Style, value: Reading,
      t: seq<Row>, serial: seq<seq<Row>>, rs: seq<Range>, shards: seq<seq<seq<Row>>>)
    requires Keyed(t) && t != [] && Tiles(rs, t[0].key, t[|t| - 1].key + 1)
    requires Flatten(serial) == t && Covers(t, rs, shards)
    ensures Written(b, style, value, Flatten(shards)) == Written(b, style, value, serial)
         == RowTexts(b.(rows := Read(value, t)), style)
  {
    hide RowTexts, Keyed, Tiles, Covers, Written;
    PagesDoNotShow(b, style, value, serial);
    PagesDoNotShow(b, style, value, Flatten(shards));
    ShardsHold(t, rs, shards);
    SharesWhole(t, rs);
  }
}
