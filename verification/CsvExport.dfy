/**
  The CSV export of a table from end to end (`stream_table_text`,
  src-tauri/src/data_export.rs): header, then page after page until the loop ends.
*/
module CsvExport {
  import opened Text
  import opened TableCopy
  import opened ExportPaging
  import opened Csv

  function CellsOf(rows: seq<Row>): (r: seq<seq<string>>)
    ensures |r| == |rows| && forall i :: 0 <= i < |r| ==> r[i] == rows[i].cells
  {
    seq(|rows|, i requires 0 <= i < |rows| => rows[i].cells)
  }

  /** The page loop is known to end. */
  predicate WillEnd(j: Job) {
    !j.Keyset() || j.Selected() || |j.table| < j.chunk
  }

  lemma RowsGrow(want: seq<string>, done: seq<Row>, row: Row, sep: char)
    ensures File(want, want, CellsOf(done + [row]), sep)
         == File(want, want, CellsOf(done), sep) + Line(Cells(want, want, row.cells), sep)
  {
    var line := Cells(want, want, row.cells);
    var all := [want] + AllCells(want, want, CellsOf(done));
    assert [want] + AllCells(want, want, CellsOf(done + [row])) == all + [line];
    LinesAppend(all, line, sep);
    Assoc(BOM, Lines(all, sep), Line(line, sep));
  }

  /** The rows of one page behind what is already written. */
  method WritePage(out: Sink, want: seq<string>, batch: seq<Row>, sep: char, ghost before: string, ghost done: seq<Row>)
    requires out.bytes == before + File(want, want, CellsOf(done), sep)
    modifies out
    ensures out.bytes == before + File(want, want, CellsOf(done + batch), sep)
  {
    hide File, CellsOf, Line;
    assert done + batch[..0] == done;
    for k := 0 to |batch|
      invariant out.bytes == before + File(want, want, CellsOf(done + batch[..k]), sep)
    {
      WriteRow(out, want, want, batch[k].cells, sep);
      RowsGrow(want, done + batch[..k], batch[k], sep);
      assert done + batch[..k] + [batch[k]] == done + batch[..k + 1];
      Assoc(before, File(want, want, CellsOf(done + batch[..k]), sep), Line(Cells(want, want, batch[k].cells), sep));
    }
    assert batch[..|batch|] == batch;
  }

  lemma StillToCome(j: Job, s: Loop, n: nat)
    requires ValidJob(j) && WillEnd(j) && s == After(j, n) && !s.finished
    ensures !Turn(j, s).finished ==> |s.written| < |Turn(j, s).written| <= |j.table|
  {
    if !j.Keyset() || j.Selected() {
      AlignedAfter(j, n);
      TurnAligned(j, s);
      AlignedAfter(j, n + 1);
    } else {
      ShortTableEnds(j);
      if n > 0 {
        FinishedStays(j, n);
      }
    }
  }

  /**
    The whole export. The file it appends is one a reader of section 2 of RFC 4180
    takes apart into the header and every row of the table, once, in key order.
  */
  method ExportTable(out: Sink, j: Job, sep: char)
    requires ValidJob(j) && WillEnd(j) && IsSeparator(sep) && j.want != []
    requires forall i :: 0 <= i < |j.table| ==> Uniform(j.want, j.table[i].cells)
    modifies out
    ensures var file := File(j.want, j.want, CellsOf(j.table), sep);
            && out.bytes == old(out.bytes) + file
            && BOM <= file && ReadTable(file[3..], sep) == Some([j.want] + CellsOf(j.table))
  {
    hide File, Select, ValidJob, ReadTable;
    ghost var before := out.bytes;
    WriteFile(out, j.want, j.want, [], sep);
    var lastKey: Option<int> := None;
    var offset: nat := 0;
    var finished := false;
    ghost var n, written := 0, [];
    assert CellsOf([]) == [];
    while !finished
      invariant Loop(written, lastKey, offset, finished) == After(j, n)
      invariant out.bytes == before + File(j.want, j.want, CellsOf(written), sep)
      decreases !finished, |j.table| - |written|
    {
      StillToCome(j, After(j, n), n);
      ghost var next := Turn(j, After(j, n));
      var batch := Select(j, lastKey, offset);
      if batch == [] {
        finished := true;
      } else {
        WritePage(out, j.want, batch, sep, before, written);
        written := written + batch;
        offset := offset + |batch|;
        if j.Keyset() && j.Selected() {
          lastKey := Some(batch[|batch| - 1].key);
        }
        finished := |batch| < j.chunk;
      }
      assert Loop(written, lastKey, offset, finished) == next;
      n := n + 1;
    }
    EndsComplete(j, n);
    FileReads(j.want, CellsOf(j.table), sep);
  }
}
