# Bulk-data pipeline: model and proofs

This Dafny project models the bulk-data half of the desktop client's Rust backend
and proves what its scanners, loops and worker protocols promise:

- the **importer** (`sql_import.rs`): an incremental statement splitter, insert
  batching and coalescing, the inline import, and the parallel data phase with its
  barrier;
- the **dump writer** (`sql_dump.rs`): literals, identifiers, INSERT packing,
  region markers, the reorder-buffer merge, serial against parallel output;
- the **copy engine** (`data_transfer.rs`): key-range splitting, keyset paging,
  packing, and the pause gate;
- the **deferred-index splitter** (`defer_index.rs`), the **identifier rewriters**
  (`sql_translate.rs`), the **CSV export** (`data_export.rs`), the **job registry**
  (`mcp_server.rs`) and the **known-hosts store** (`ssh_known_hosts.rs`).

`dafny verify dfyconfig.toml` checks all of it.

## How it is put together

| module | about |
|---|---|
| Text | byte strings, trimming, joining, small index helpers |
| Splitter, ChunkIndependence, Markers | the five-mode automaton as a class, its whole-input specification, independence of chunk boundaries, which lines are markers |
| InsertSplit, DumpedInserts, Coalesce, InlineImport | cutting an INSERT, dumped ones included, gluing INSERTs, batches and replay against one-by-one execution |
| ParallelImport, ImportProgress, ImportStop | coordinator, queue, workers, barrier as a transition system; safety, that every import ends, and what a stop leaves |
| PkRanges, TableCopy, Packing | range split, keyset paging under every schedule, extended INSERTs |
| Framing, DumpWriter, TupleReading, InsertReading, DumpMerge, DumpSelection, DumpRegions, Sharding, DumpImport, DumpInline | what is written, how it is assembled, how the importer reads it back and executes it |
| DdlScan, DdlItems, DeferIndex, DeferKeys, DeferSettles | scanning and rewriting CREATE TABLE, said item by item, and reading the result |
| Csv, ExportPaging, CsvExport | the CSV printer against section 2 of RFC 4180, the paging loop, the whole export |
| Requote, RequoteReading | the two identifier rewriters, what each dialect reads before and after |
| Gate, Jobs | the wake-up protocol, job states, the registry |
| KnownHosts, HostLines | the file and the map, and which lines hold entries |

Objects that change in the source are classes here (`StreamSplitter`, `Importer`,
`Job`, `JobTable`, `Store`, `Sink`); loops are methods with invariants, each proved
equal to a function, and the theorems are about the functions. Concurrency is a
transition system whose runs are all interleavings. The database is an abstract
state with one partial function per row and per statement; a transaction either
applies all of its statements or nothing. A source table is a sequence of rows
strictly sorted by key.

## Where the code does less than one might expect

Each of these is proved, with the exact condition:

- The parallel import gives its worker pool up at the first marker that leaves the
  data region, and then stops without an error at the next data statement. It is
  complete exactly for streams with one data run (`CompleteIffSingleRun`). The dump
  writer interleaves markers table by table, so a dump is imported completely in
  parallel exactly when no table with data follows another one
  (`ParallelImportOfDump`). Every other stream has an import that ends without error
  and has left a statement out (`LosesSilently`).
- Chunk boundaries show under delimiters longer than 17 bytes (`CutsInvisibleIff`,
  `LongScriptShows`).
- An identifier with a backslash in front of a quote breaks the splitter's framing
  (`IdentReadIff`, `BackslashTable`).
- A blob that is not written in hex has its bytes widened to characters, so it reads
  back as itself exactly when they are all below 128 (`RowIsKeptIff`, `WidenedClash`).
- An empty blob in hex is written as `0x`, which MySQL does not read as a literal
  (`RowReads`).
- String literals for PostgreSQL are escaped with backslashes too; standard strings
  read them as the value only without backslash, LF, CR and NUL
  (`StandardRoundTripIff`).
- The importer executes a CREATE as it was written exactly when there is no comment in
  it outside quotes; the versioned comments of SHOW CREATE, partition clauses
  included, are lost (`WholeIff`, `CommentDropped`).
- The serial dump forgets a table's deferred indexes when the row count fails after
  its CREATE was written, leaves partial data when the data query fails, and opens an
  empty data region when rows were counted but none is left to fetch; the parallel
  dump does none of this (`SameOutcomeIff`).
- The export loop never ends when the key column is not exported and the table
  fills a page (`EndsIff`).
- A record without columns is written as an empty line, which reads as one empty
  field (`CsvRoundTripIff`).
- `TransferControl::check` can sleep through a resume: exactly when the announcement
  falls between its check and its registration (`NoneLostIff`, `LostIff`).
- The identifier rewriters copy strings as they stand, so a string with a backslash is
  another value to the other dialect (`TokensKeptIff`, `EscapedBackslash`).
- A known-hosts file whose last line is unfinished, an entry included, disagrees with
  the map after the next addition unless that line is blank (`AddAgreesIff`), and so
  does one to which a host with whitespace or a leading `#` is added (`Store.Add`).
- On a user stop the trailing inline batch is still committed; the comment at
  `sql_import.rs:1235-1236` says otherwise, and `Importer.Run` follows the code.
- Coalescing re-spaces an insert that stays alone (`VALUES(1)` becomes
  `VALUES (1)`), and only merged statements respect the byte cap (`CoalescedRuns`).

## Model

| member | source | states |
|---|---|---|
| `Splitter.StreamSplitter.constructor` | src-tauri/src/sql_import.rs:289-300 | A new splitter is in normal mode with delimiter `;` and nothing buffered. |
| `Splitter.StreamSplitter.Flush` | src-tauri/src/sql_import.rs:301-309 | The buffered statement is emitted trimmed, unless it is blank, and the buffer is empty afterwards. |
| `Splitter.StreamSplitter.FinishComment` | src-tauri/src/sql_import.rs:310-318 | A comment line that is a dump marker is emitted as that marker, any other comment as nothing. |
| `Splitter.StreamSplitter.Read` | src-tauri/src/sql_import.rs:322-443 | The chunk loop: the object's new state, its carry and the emitted items are those of the recursive whole-input scan that stops `keep` bytes before the end. |
| `Splitter.StreamSplitter.Feed` | src-tauri/src/sql_import.rs:320-460 | One chunk refines the specification: a chunk that is not final leaves at most 16 bytes unread; a final one emits exactly what reading carry and chunk in one go emits. |
| `Markers.MarkerIff` | src-tauri/src/sql_import.rs:243-262 | A comment line is a marker of a kind exactly when, behind blanks, it is `-- @BM:` and what names the kind: `DUMP`, `T` and a blank or tab, `D` alone or with a blank or tab, `I` or `F` alone or with a blank. |
| `Markers.LastLine` | src-tauri/src/sql_import.rs:444-459 | A comment that the input ends in counts as one that a line feed ends: its marker is emitted, and the statement in front of it. |
| `Markers.SettledDelim` | src-tauri/src/sql_import.rs:444-459 | A delimiter that is being read when the input ends is adopted as it would be at the end of its line. |
| `ChunkIndependence.ScanChunk` | src-tauri/src/sql_import.rs:320-460 | Reading a chunk and going on with what follows is reading both at once, whatever the mode in which the cut falls. |
| `ChunkIndependence.ChunkIndependent` | src-tauri/src/sql_import.rs:280-460 | For every byte string and every partition into chunks, empty and one-byte ones included, the emitted items are those of one final feed of the whole input, as long as every delimiter in force is safe. |
| `ChunkIndependence.FeedStream` | src-tauri/src/sql_import.rs:481-567 | A session with the object (chunks, then an empty final feed) emits the items of the whole input. |
| `ChunkIndependence.LongDelimShows` | src-tauri/src/sql_import.rs:263-266 | For every delimiter longer than 17 bytes that can match at all there is a text and a place to cut it where the cut shows. |
| `ChunkIndependence.CutsInvisibleIff` | src-tauri/src/sql_import.rs:263-328 | The exact condition: cuts are invisible under a delimiter if and only if it has at most 17 bytes or an earlier branch always takes its first byte. |
| `ChunkIndependence.LongScriptShows` | src-tauri/src/sql_import.rs:263-328 | Such a delimiter can be installed: for every one that a directive can name there is a whole script, read from the splitter's first state, that a cut breaks. |
| `InsertSplit.SkipQuoted` | src-tauri/src/sql_import.rs:915-935 | The returned index is behind the quoted span (backslash escapes except in backticks, doubled quotes), or at the end of the input. |
| `InsertSplit.TuplesAreClean` | src-tauri/src/sql_import.rs:827-871 | The loop answers true exactly for balanced groups separated by commas with nothing else around them. |
| `InsertSplit.SplitInsertAt` | src-tauri/src/sql_import.rs:781-823 | The loop cuts a statement where the specification does and refuses what it refuses. |
| `InsertSplit.CleanJoin` | src-tauri/src/sql_import.rs:827-871 | Clean tuple lists are closed under joining with a comma, and the groups of the joined list are the groups of both, in order. |
| `InsertSplit.SplitRebuilt` | src-tauri/src/sql_import.rs:781-823 | An insert rebuilt from its own prefix and any other clean tuple list is cut back into exactly those two. |
| `InsertSplit.SplitGlued` | src-tauri/src/sql_import.rs:781-871 | Two inserts with one prefix, glued with a comma, split back into that prefix and both tuple lists, row for row. |
| `DumpedInserts.InsertIsCut` | src-tauri/src/sql_import.rs:781-823 | Whatever the quoted names, with or without a column list and an OVERRIDING clause: an INSERT or REPLACE, its keywords in any case, in front of a clean list of rows is cut right behind VALUES. |
| `DumpedInserts.DumpedInsertIsCut` | src-tauri/src/sql_dump.rs:1338-1422 | Every INSERT the dump writer writes is recognised by the importer, whatever its values; what counts as its rows are the rows written, one for one. |
| `Coalesce.CoalesceInserts` | src-tauri/src/sql_import.rs:878-907 | The loop with its accumulator computes the specified list of statements. |
| `Coalesce.GlueMeans` | src-tauri/src/sql_import.rs:878-907 | Executing a glued insert is executing both inserts, in order, all or nothing. |
| `Coalesce.CoalescedMeans` | src-tauri/src/sql_import.rs:873-907 | Coalescing preserves meaning on every database: the glued list fails or ends where the original list, one statement after the other, fails or ends. |
| `Coalesce.CoalescedRuns` | src-tauri/src/sql_import.rs:878-907 | The output partitions the input into consecutive runs: statements merge only with inserts of their own prefix, in order, every merged one is within the byte cap, and neighbours that would fit together under the cap are not left apart. |
| `InlineImport.RunSucceeds` | src-tauri/src/sql_import.rs:984-1015 | A batch that would commit as one transaction ends in the same database as its statements one by one. |
| `InlineImport.StopsAtFirstFailure` | src-tauri/src/sql_import.rs:1016-1042 | Without continue-on-error the reference run executes the longest clean prefix, counts the first failing statement and stops. |
| `InlineImport.SkipsFailures` | src-tauri/src/sql_import.rs:1016-1042 | With continue-on-error the run goes through every statement: there is a selection that executes cleanly from the first database to the last, each statement left out fails on the database its selected predecessors leave, all are counted as done and those left out as errors. |
| `InlineImport.Importer.FlushBatch` | src-tauri/src/sql_import.rs:966-1046 | Whatever the transaction does, with retries and with the replay after a rollback, database, counters and abort flag are those of running the batch one by one; the batch is empty afterwards. |
| `InlineImport.Importer.Replay` | src-tauri/src/sql_import.rs:1016-1042 | The slow path after a rolled-back transaction runs the batch statement by statement and stops at the first failure that may not be skipped. |
| `InlineImport.Importer.Accept` | src-tauri/src/sql_import.rs:1184-1230 | One more statement: an insert that keeps the queue below both limits is queued and nothing else happens, otherwise the queue is empty afterwards; database plus pending batch equals the processed prefix. |
| `InlineImport.Importer.Run` | src-tauri/src/sql_import.rs:1135-1243 | The inline import refines statement-by-statement execution for every item stream, threshold, policy and transaction outcome; a user stop leaves exactly the items read before it. |
| `ParallelImport.StepKeeps` | src-tauri/src/sql_import.rs:1078-1256 | Every step of coordinator, workers and user keeps the invariant: each statement read is in exactly one place, the phases are separated, the log is ordered. |
| `ParallelImport.BarrierSafety` | src-tauri/src/sql_import.rs:1158-1174 | For every interleaving: whenever a header, DDL, index or footer statement runs, no forwarded data statement is queued or in flight. |
| `ParallelImport.AtMostOnce` | src-tauri/src/sql_import.rs:1078-1124 | In every state of every run a statement was executed at most once, and only after it was read. |
| `ParallelImport.SourceOrder` | src-tauri/src/sql_import.rs:1078-1183 | The log of every run is in source order up to reordering data statements among themselves, and the workers run exactly the data statements. |
| `ParallelImport.StopsAtSecondRun` | src-tauri/src/sql_import.rs:1162-1183 | An import that ends without abort or stop has executed each statement before the first one of a second data run exactly once, and nothing from there on. |
| `ParallelImport.CompleteIffSingleRun` | src-tauri/src/sql_import.rs:1162-1183 | Such an import has executed everything if and only if the data statements form one contiguous run. |
| `ImportProgress.NoDeadlock` | src-tauri/src/sql_import.rs:1078-1256 | In every state of every run short of the end the coordinator or a worker can take a step. |
| `ImportProgress.ImportEnds` | src-tauri/src/sql_import.rs:1078-1256 | No run has more than 8 steps for each item, 1 for each worker and 4, besides the user's stop; where nobody can move any more the import has finished. |
| `ImportProgress.LosesSilently` | src-tauri/src/sql_import.rs:1162-1183 | Every stream with a second data run, for any number of workers, has an import that ends without error, abort or stop and has not executed one of its statements. |
| `ImportProgress.TwoTables` | src-tauri/src/sql_dump.rs:918-937 | The stream of a dump of two tables with a row each is such a stream. |
| `ImportStop.HaltIsPrompt` | src-tauri/src/sql_import.rs:1135-1160 | In every run, from a stop request or a fatal error on: at most one more item is read, and no more statements are executed than the workers hold, the batch holds, and that one. |
| `ImportStop.QueueBounded` | src-tauri/src/sql_import.rs:1078-1090 | In every state of every run the data queue holds at most four statements a worker. |
| `DumpImport.DumpIsSingleRunIff` | src-tauri/src/sql_dump.rs:898-943 | The item stream of a generated single-file dump has one data run if and only if no table with data statements follows another table with a data region. |
| `DumpImport.ParallelImportOfDump` | src-tauri/src/sql_import.rs:1135-1183 | A parallel import of a generated single-file dump that ends without abort or stop is complete exactly in that case. |
| `PkRanges.SplitPkRanges` | src-tauri/src/data_transfer.rs:1704-1725 | The loop pushes exactly the specified ranges. |
| `PkRanges.RangesPartition` | src-tauri/src/data_transfer.rs:1702-1725 | The ranges are non-empty, contiguous, disjoint and cover [min, max], at most one per worker; with enough keys all but the last have size floor(span/workers) and the last exceeds that by less than workers. |
| `PkRanges.TilesExactlyOnce` | src-tauri/src/data_transfer.rs:1702-1725 | Every key of the span lies in exactly one of the ranges. |
| `TableCopy.NextPage` | src-tauri/src/data_transfer.rs:1788-1955 | The page behind the last key starts at the first row not yet fetched. |
| `TableCopy.CopyRange` | src-tauri/src/data_transfer.rs:1744-1960 | The keyset loop of one range terminates and sends every matching row once, in key order; a stop leaves a prefix. |
| `TableCopy.CopyWhole` | src-tauri/src/data_transfer.rs:1313-1506 | The unpartitioned keyset loop sends the table. |
| `TableCopy.SharesPartition` | src-tauri/src/data_transfer.rs:1600-1697 | The rows matched by contiguous ranges, one range after the other, are the rows matched by their union: none missed, none repeated. |
| `TableCopy.RunSchedule` | src-tauri/src/data_transfer.rs:1617-1697 | For every order in which the workers fetch pages and send INSERTs the target holds of each range a prefix of its rows as the table has them, and no row twice; without a stop all of them. |
| `TableCopy.CopyRanges` | src-tauri/src/data_transfer.rs:1513-1697 | Exactly-once parallel copy: without a stop the target is the table as a multiset, and what it holds of each worker's range stands in it in key order; a stop leaves a prefix of each range; the ranges are those of the split and their rows, one range after the other, are the table. |
| `ExportPaging.EndsIff` | src-tauri/src/data_export.rs:264-323 | The export ends exactly when there is no key column, or the key column is among the exported ones, or the table is shorter than a page. |
| `ExportPaging.EndsComplete` | src-tauri/src/data_export.rs:257-330 | When it ends, every row was written once, in key order. |
| `CsvExport.ExportTable` | src-tauri/src/data_export.rs:231-334 | The exported file, read by the grammar of section 2 of RFC 4180, is the header and every row of the table in key order. |
| `Framing.ReadsText` | src-tauri/src/sql_import.rs:338-401 | A statement text with closed quotes and no comment or `;` outside them goes into the splitter's buffer byte by byte, unchanged. |
| `Framing.ReadsScript` | src-tauri/src/sql_import.rs:320-460 | A script of well-laid pieces comes apart into exactly the meanings of its pieces, in order. |
| `Packing.WritePacked` | src-tauri/src/sql_dump.rs:1382-1408 | The loop with its reused buffer sends the greedy grouping of the rows. |
| `Packing.PackPartitions` | src-tauri/src/data_transfer.rs:1355-1433 | Every row is in exactly one statement, in order; no statement is empty; one with two or more rows is within the cap; a statement closes only when the next row would not fit. |
| `Packing.TupleLinesUp` | src-tauri/src/sql_dump.rs:1350-1395 | With generated columns masked, each kept value stands at the position of its own column in the emitted column list. |
| `Packing.NothingElseDropped` | src-tauri/src/sql_dump.rs:1350-1371 | A column is left out of the list if and only if it is generated. |
| `DumpWriter.LiteralRoundTrip` | src-tauri/src/sql_dump.rs:61-110 | A printed string literal, read by MySQL's escape rules, is the original value and takes nothing of what follows. |
| `DumpWriter.WidenedIff` | src-tauri/src/sql_dump.rs:80-85 | Widening leaves a blob as it is if and only if all its bytes are below 128. |
| `DumpWriter.StandardRoundTripIff` | src-tauri/src/sql_dump.rs:61-78 | The same escapes are printed for PostgreSQL: read as a standard string, a literal is the original value if and only if that has no backslash, LF, CR or NUL. |
| `TupleReading.RowReads` | src-tauri/src/sql_dump.rs:1382-1396 | A printed row, read by MySQL or PostgreSQL with a reader of literals of its own (hex pairs, `'\x..'::bytea`, truth values, NULL, numbers, strings), gives back one datum a value, in order, up to the row's own parenthesis, whatever follows; an empty blob in hex is not a literal. |
| `TupleReading.LiteralReads` | src-tauri/src/sql_dump.rs:42-110 | Each literal in front of a separator is read as what its value means to the server, and as nothing more. |
| `TupleReading.RowIsKeptIff` | src-tauri/src/sql_dump.rs:42-110 | The row reads back as its own data if and only if, for MySQL, no blob in hex is empty and no other blob has a byte from 128 on, and for PostgreSQL, no string has a backslash, LF, CR or NUL. |
| `TupleReading.SameTextSameData` | src-tauri/src/sql_dump.rs:1382-1396 | Two rows that print alike are read as the same data, and are the same data where every value is kept. |
| `TupleReading.WidenedClash` | src-tauri/src/sql_dump.rs:80-85 | The blob E9 and the string C3 A9 print alike and are different values. |
| `DumpWriter.LiteralSealed` | src-tauri/src/sql_dump.rs:42-110 | No literal of any kind can be mistaken for more than itself: in front of a separator its quotes are closed and it hides no comment or `;`. |
| `DumpWriter.IdentReadIff` | src-tauri/src/sql_import.rs:377-401 | The splitter, inside a quoted identifier just opened, leaves it at the identifier's own closing quote if and only if its backslashes pair up with characters other than the quote. |
| `DumpWriter.LeavesReads` | src-tauri/src/sql_import.rs:377-401 | What the splitter reads from inside a quoted span: the span goes into the statement and reading continues behind it; a span that never closes makes everything up to the end one statement. |
| `DumpWriter.BackslashSwallows` | src-tauri/src/sql_import.rs:377-401 | Behind a name that ends in an unpaired backslash, everything without a further identifier quote, statements and their `;` included, becomes part of the statement. |
| `DumpWriter.BackslashTable` | src-tauri/src/sql_dump.rs:1338-1422 | So an INSERT written for such a table is read with its terminator in it: framing breaks. |
| `DumpWriter.WriteBatch` | src-tauri/src/sql_dump.rs:1338-1422 | The writer's output is one piece per group of rows, terminated as the style demands. |
| `DumpWriter.BatchRoundTrip` | src-tauri/src/sql_dump.rs:1338-1422 | Whatever the values, the splitter reads the output as exactly the INSERTs written, texts unchanged and no marker, and their rows are the batch's rows in order. |
| `DumpWriter.GroupsShape` | src-tauri/src/sql_dump.rs:1382-1422 | Without extended inserts every row has a statement of its own; with them a statement of several rows is within the cap and none ends that could have taken the next row. |
| `InsertReading.InsertReads` | src-tauri/src/sql_dump.rs:1338-1422 | A reader that knows nothing of the writer reads each INSERT as the schema, the table, the listed columns and every row's data, for all names and values. |
| `InsertReading.BatchReads` | src-tauri/src/sql_dump.rs:1338-1422 | From values to text and back: the output of a batch, split by the importer and read statement by statement, is rows of that schema, table and columns, each row of the batch once and in order. |
| `InsertReading.BatchIsKeptIff` | src-tauri/src/sql_dump.rs:42-110 | The rows come back as the batch's own data if and only if every written value is one that is kept. |
| `Framing.ReadsFree` | src-tauri/src/sql_import.rs:320-460 | Any text whose last `;` is read outside quotes and comments under `;`, and whose comments are no markers, comes apart into its own statements, and reading goes on behind it. |
| `Framing.FreeJoin` | src-tauri/src/sql_import.rs:320-460 | Such texts, one after the other, hold the statements of each. |
| `Framing.WholeIff` | src-tauri/src/sql_import.rs:330-443 | The importer executes a trimmed text unchanged and as one statement if and only if its quotes close and outside them no `;`, `#`, `--` or block comment begins in it, and no DELIMITER directive at the start of a line. |
| `Framing.CommentDropped` | src-tauri/src/sql_import.rs:358-420 | What is executed instead when a block comment follows the statement, as the partition clause does in SHOW CREATE: the statement without it. |
| `DumpMerge.RunSerialDump` | src-tauri/src/sql_dump.rs:616-682 | The serial loop produces the fold over the work list. |
| `DumpMerge.Arrive` | src-tauri/src/sql_dump.rs:866-879 | One arrival keeps the reorder buffer's invariant: everything below `next` is out, in order, and nothing is lost. |
| `DumpMerge.DrainLeftovers` | src-tauri/src/sql_dump.rs:880-889 | Artifacts stuck behind a missing index go out in index order. |
| `DumpMerge.MergeStream` | src-tauri/src/sql_dump.rs:848-894 | For every arrival order, gaps included, the sink receives each artifact once in ascending order; totals and deferred list are those of the sorted list. |
| `DumpMerge.SortedUnique` | src-tauri/src/sql_dump.rs:848-894 | There is one such order, so the result does not depend on the schedule. |
| `DumpMerge.SameOutcomeIff` | src-tauri/src/sql_dump.rs:688-771 | One table comes out the same serially and staged if and only if its data phase is clean: a failed count makes the serial writer forget deferred indexes, failed data leaves partial output only there, and so does an empty data region when rows were counted and none fetched. |
| `DumpMerge.ParallelEqualsSerial` | src-tauri/src/sql_dump.rs:778-943 | With clean data phases the parallel dump is the serial dump, operation for operation, for every arrival order. |
| `DumpSelection.SerialSelects` | src-tauri/src/sql_dump.rs:688-771 | For every work list and whatever fails: with `Structure` the CREATEs that could be fetched, each behind its DROP if asked for, and no record; with `Data` each table's marker and INSERTs and no CREATE or DROP; with `Both` both, without the records of a table whose CREATE failed; in table order, nothing twice. |
| `DumpSelection.MergeSelects` | src-tauri/src/sql_dump.rs:898-943 | The same of the merge of any list of staged tables, which keeps no partial data and no empty data region. |
| `DumpSelection.WriterYieldsInserts` | src-tauri/src/sql_dump.rs:1338-1422 | What these results take for granted of a data query, that it yields INSERTs, holds of the INSERT writer's pieces. |
| `DumpSelection.DumpTotals` | src-tauri/src/sql_dump.rs:688-771 | Rows, tables and failures reported by either path, and the index statements left for the end: those of a CREATE that was written without them, except where the serial writer forgets them. |
| `DumpSelection.ZipLayout` | src-tauri/src/sql_dump.rs:620-662 | The zip archive of either path: every piece stands in an entry, entries do not overlap, a table is filed as schema/name.sql and a schema under its own entry where it is new. |
| `Sharding.PagesDoNotShow` | src-tauri/src/sql_dump.rs:1456-1553 | However rows are cut into pages, the INSERTs hold all of them, in order. |
| `Sharding.ShardedRowsAreSerial` | src-tauri/src/sql_dump.rs:1226-1276 | With intra-table sharding the row sequence across INSERTs equals the serial one, for any tiling of the keys and any paging. |
| `DumpRegions.TableReads` | src-tauri/src/sql_dump.rs:898-943 | One table's part of the file puts every statement its DDL text holds in the DDL region and its inserts in the data region, whatever region comes before. |
| `DumpRegions.RegionFidelity` | src-tauri/src/sql_dump.rs:898-1013 | Reading a generated dump, the importer's marker fold finds the session statements in the header, every statement of the tables' DDL in the DDL region, INSERTs in the data region, deferred indexes in the index region and the restoring statements in the footer, in order; DDL may be any text that settles, with comments, directives and several statements. |
| `DumpRegions.IndexRegionReads` | src-tauri/src/sql_dump.rs:982-1013 | The deferred statements are read in the index region, each schema's group behind its context statement. |
| `DumpInline.DumpPrepares` | src-tauri/src/sql_import.rs:1135-1230 | What a single-file dump leaves to execute are its session statements, each table's DDL and INSERTs, the deferred indexes and the footer, in that order, as the statement filter passes them. |
| `DumpInline.ImportDump` | src-tauri/src/sql_import.rs:1135-1243 | From the chunks of the file to the database: the inline import of a single-file dump ends where executing those statements one by one in that order ends. |
| `DdlScan.SkipQuoted` | src-tauri/src/defer_index.rs:357-378 | The loop stops behind the span that the recursive definition delimits. |
| `DdlScan.OuterParens` | src-tauri/src/defer_index.rs:292-318 | The loop finds the pair the specification finds. |
| `DdlScan.OuterIs` | src-tauri/src/defer_index.rs:292-318 | If the text opens before it closes, the pair is the first `(` outside quotes and the `)` that brings its level back. |
| `DdlScan.CloseBalanced` | src-tauri/src/defer_index.rs:292-318 | Up to the closing parenthesis found, the level never dips and every quote closes. |
| `DdlItems.SplitTopLevel` | src-tauri/src/defer_index.rs:321-353 | The loop returns the trimmed, non-empty stretches between top-level commas. |
| `DdlItems.ItemsOk` | src-tauri/src/defer_index.rs:321-353 | The items of a balanced body are balanced, trimmed and free of top-level commas. |
| `DdlItems.LayoutItems` | src-tauri/src/defer_index.rs:171-173 | Items laid out again come apart into exactly those items, and the layout is balanced. |
| `DeferIndex.Sort` | src-tauri/src/defer_index.rs:157-165 | The kept/deferred loop separates the items as specified, each list in source order. |
| `DeferIndex.SplitMysqlDdl` | src-tauri/src/defer_index.rs:132-178 | The imperative split equals the specification, including the cases that change nothing. |
| `DeferIndex.SplitConserves` | src-tauri/src/defer_index.rs:132-178 | For every text: kept and deferred items are exactly the items of the body, interleaved, each in its order. |
| `DeferIndex.MustStay` | src-tauri/src/defer_index.rs:180-211 | PRIMARY, UNIQUE, CONSTRAINT and FOREIGN KEY items and every key that backs a foreign key stay inline; which keys those are is said in DeferKeys.SplitByItems. |
| `DeferIndex.NewCreateListsKept` | src-tauri/src/defer_index.rs:132-178 | Scanning the new CREATE finds the same opening parenthesis, a matching closing one, and between them exactly the kept items. |
| `DeferIndex.SplitTwice` | src-tauri/src/defer_index.rs:132-178 | For every text in which no `)` outside quotes comes before the first `(`, a second split changes nothing and defers nothing. |
| `DeferKeys.ColumnReads` | src-tauri/src/defer_index.rs:230-246 | A column of a key is its name however it is written: plain or in backticks, with a prefix length, with ASC or DESC in any case. |
| `DeferKeys.BacksIs` | src-tauri/src/defer_index.rs:203-228 | On texts: a key backs a foreign key exactly when the columns of some foreign key among the items are its leftmost columns. |
| `DeferKeys.SplitByItems` | src-tauri/src/defer_index.rs:132-246 | The split of a printed CREATE TABLE said on its items: the KEY, INDEX, FULLTEXT and SPATIAL items whose leftmost columns are not those of a foreign key leave and stand in one ALTER, each behind `ADD `, in order; all other items stay, in order; where none leaves nothing changes. |
| `DeferSettles.DeferralSettles` | src-tauri/src/defer_index.rs:132-178 | A CREATE that the importer reads to its end, bare up to the end of its list: with its indexes deferred it is still read to its end, as as many statements, and each ALTER is read as the one statement it is. |
| `DeferSettles.IdentIsName` | src-tauri/src/sql_dump.rs:706-708 | A quoted table name whose backslashes pair up with characters other than the quote is a name that the ALTER can carry. |
| `Csv.WriteField` | src-tauri/src/data_export.rs:622-636 | A field is quoted exactly when it holds the separator, a quote, CR or LF, with its quotes doubled. |
| `Csv.BareIff` | src-tauri/src/data_export.rs:622-636 | A value is written bare exactly when it reads back that way; only the others are quoted. |
| `Csv.WriteHeader` | src-tauri/src/data_export.rs:582-596 | The header is one record of the column names. |
| `Csv.WriteRow` | src-tauri/src/data_export.rs:598-620 | A row is one record of the wanted columns' values, looked up by name, empty where missing. |
| `Csv.CellsMatch` | src-tauri/src/data_export.rs:607-616 | Each wanted column gets the value the batch carries under its name, whatever the order of the batch's columns. |
| `Csv.TableReads` | src-tauri/src/data_export.rs:582-636 | Decoding what was written gives back every record of every table of strings; a record without columns comes back as one empty field. |
| `Csv.CsvRoundTripIff` | src-tauri/src/data_export.rs:582-636 | The round trip holds if and only if every record has a column. |
| `Requote.RewriteBackticksToDoubleQuotes` | src-tauri/src/sql_translate.rs:123-189 | The loop computes the token-wise rewriting from MySQL to PostgreSQL. |
| `Requote.RewriteDoubleQuotesToBackticks` | src-tauri/src/sql_translate.rs:291-356 | The loop computes the token-wise rewriting from PostgreSQL to MySQL. |
| `RequoteReading.TokensKeptIff` | src-tauri/src/sql_translate.rs:123-189 | After a rewriting the other dialect reads what the first one read (strings by value, identifiers by name, other characters as they are, a `#` as two dashes) if and only if no token begins with its identifier quote and no string has a backslash, except in front of `%` or `_`, where MySQL keeps it. |
| `RequoteReading.SameValueIff` | src-tauri/src/sql_translate.rs:131-152 | MySQL's reading and the standard one give a string the same value if and only if every backslash in it stands in front of `%` or `_`. |
| `RequoteReading.EscapedIsRead` | src-tauri/src/sql_dump.rs:61-78 | For a string that closes, MySQL's reading here is the one that printed literals are read back with. |
| `RequoteReading.StandardIsRead` | src-tauri/src/sql_dump.rs:61-78 | And so is the standard one. |
| `RequoteReading.EscapedBackslash` | src-tauri/src/sql_translate.rs:123-189 | An ordinary MySQL string with an escaped backslash: copied as it stands, it is another value to PostgreSQL. |
| `Requote.BackAgainIff` | src-tauri/src/sql_translate.rs:291-356 | Rewriting there and back is the identity if and only if identifiers close and no stray quote or `#` stands outside strings and identifiers; both directions, every text. |
| `RequoteReading.OldQuoteGone` | src-tauri/src/sql_translate.rs:291-356 | After a pass that keeps the tokens, whatever the other dialect reads, the old identifier quote neither stands by itself nor opens a string: it is left only inside strings and names. |
| `Gate.NoneLostIff` | src-tauri/src/data_transfer.rs:71-76 | No schedule leaves a waiter asleep in front of an open gate with no announcement to come if and only if waiters register before they check; `TransferControl::check` registers after. |
| `Gate.LostIff` | src-tauri/src/data_transfer.rs:71-76 | On a schedule of the code as written a waiter is lost if and only if an announcement fell between its check and its registration, none came since, and the gate is open with none to come. |
| `Gate.SafeIfUndisturbed` | src-tauri/src/data_transfer.rs:71-76 | So on every schedule that keeps announcements out of that gap the code as written never loses a waiter. |
| `Gate.LostTrace` | src-tauri/src/data_transfer.rs:61-76 | A concrete run in which a resume falls between check and registration and the waiter sleeps on. |
| `Gate.WaiterReturns` | src-tauri/src/mcp_server.rs:249-262 | Along every stretch of every run in which the gate stays open and announced, a waiter takes at most three steps of its own (a timeout is none), has returned once it has taken three, and until then has one to take. |
| `Jobs.Job.Finish` | src-tauri/src/mcp_server.rs:227-236 | The result, the error, `cancelled` or the panic's message becomes the terminal state, and the waiters are notified once. |
| `Jobs.Job.OnProgress` | src-tauri/src/mcp_server.rs:297-314 | Progress is recorded only while the job runs. |
| `Jobs.StepRefines` | src-tauri/src/mcp_server.rs:267-340 | Every step of a job system is a step of the register-first protocol or invisible to it. |
| `Jobs.LeavesRunningOnce` | src-tauri/src/mcp_server.rs:227-236 | In every run a job that has left Running keeps the state it ended with. |
| `Jobs.ReturnsOutcome` | src-tauri/src/mcp_server.rs:249-262 | A caller that returns without a timeout does so on a job that has left Running, and that outcome stays for the rest of the run. |
| `Jobs.NeverSleepsThrough` | src-tauri/src/mcp_server.rs:247-262 | In every run a caller asleep on a finished job has its notification behind it or still to come. |
| `Jobs.CallerReturns` | src-tauri/src/mcp_server.rs:247-262 | However a run goes on once the supervisor is gone, a caller takes at most three steps of its own, has returned once it has taken three, and until then has one to take. |
| `Jobs.JobTable.EvictFinished` | src-tauri/src/mcp_server.rs:373-387 | Eviction forgets only finished jobs, oldest first, until exactly 50 are left or all that are left run; 50 or fewer jobs are untouched. |
| `Jobs.JobTable.Register` | src-tauri/src/mcp_server.rs:291-295 | A job just registered survives the eviction that follows. |
| `KnownHosts.ParseText` | src-tauri/src/ssh_known_hosts.rs:185-213 | The line loop builds the map of the fold over the lines. |
| `KnownHosts.LineReads` | src-tauri/src/ssh_known_hosts.rs:90-121 | A written line reads back as the host, port and key it was written for. |
| `HostLines.LineIff` | src-tauri/src/ssh_known_hosts.rs:185-213 | Said without the parser: a line holds an entry exactly when it is blanks, a host without whitespace that does not begin with `#`, a colon, a port, whitespace, and a text whose trimmed form decodes to the key. |
| `HostLines.PortIff` | src-tauri/src/ssh_known_hosts.rs:185-213 | A port is its decimal digits up to 65535, perhaps behind zeros, perhaps behind a plus. |
| `KnownHosts.Store.Load` | src-tauri/src/ssh_known_hosts.rs:64-73 | Loading any text gives a map whose every host can be written again, and agreement when the text ends its last line. |
| `KnownHosts.Store.Verify` | src-tauri/src/ssh_known_hosts.rs:75-87 | When map and file agree: Unknown iff no line of the file is an entry of that host and port, Match iff one is with that key, Mismatch iff there is one, and none with that key. |
| `KnownHosts.ParseHolds` | src-tauri/src/ssh_known_hosts.rs:185-213 | The map parsed from a text holds a place, and a key for it, exactly when a line of the text does. |
| `KnownHosts.AddFirst` | src-tauri/src/ssh_known_hosts.rs:75-121 | Trust on first use: after one key is added for a host without entries, that key matches and every other one is a mismatch. |
| `KnownHosts.Store.Add` | src-tauri/src/ssh_known_hosts.rs:90-121 | Map and file grow by the same entry; from agreement, they agree afterwards if and only if the host has no whitespace and does not begin with `#`. |
| `KnownHosts.Store.Remove` | src-tauri/src/ssh_known_hosts.rs:149-182 | Rewriting, in whatever order the map is iterated, brings file and memory into agreement, also when nothing was found and also when the file had lost it. |
| `KnownHosts.Store.Apply` | src-tauri/src/ssh_known_hosts.rs:61-183 | After any sequence of additions and removals of writable hosts, parsing the file gives the map in memory. |
| `KnownHosts.AddTrusts` | src-tauri/src/ssh_known_hosts.rs:75-121 | An added key matches from then on, no key loses trust, no other host is affected. |
| `KnownHosts.RemoveDistrusts` | src-tauri/src/ssh_known_hosts.rs:149-162 | Removing withdraws trust from exactly the keys of that host with that fingerprint. |
| `KnownHosts.AddAgreesIff` | src-tauri/src/ssh_known_hosts.rs:108-121 | Appending behind an unfinished last line agrees with the map if and only if that line holds no entry and the glued one holds the new one: behind whitespace always, behind an entry, a comment or a word never; where nothing in front of a key's text is ignored, exactly behind whitespace. |

## Left out

- Text is a sequence of bytes: lossy UTF-8 decoding and Unicode whitespace are not modelled; trimming, word boundaries and case folding are ASCII, and identifiers in the rewriters are ASCII.
- Integer widths: parenthesis depths, row counts and key spans are unbounded, so `i32`, `u64` and `i128` overflow is not modelled; ports are.
- Database drivers, connection pools, session statements and the `prepare_stmt` filter are parameters; a transient error is an outcome of the transaction, and retry delays, as well as a retry that runs out while a statement is replayed, are not modelled.
- ParallelImport.BarrierSafety: a statement counts as executed when it is handed to the driver or dropped by the statement filter; worker retries are one step.
- ParallelImport.CompleteIffSingleRun: about the states of runs that ended; ImportEnds says that they do, given that a party that can move does. The parser thread in front of the coordinator is not a party: the items are there when they are read.
- DumpRegions.RegionFidelity: the preamble's session statements are parameters; DDL and deferred statements are any texts that settle (their last `;` ends a statement, none of their comments is a marker), and a deferred statement is held without its `;`.
- TupleReading.RowReads: a blob is one character a byte; without hex blobs a MySQL dump writes a blob as a string, and its datum is that string of characters. PostgreSQL strings are read as standard ones.
- DeferKeys.SplitByItems: about CREATE texts laid out as a server prints them, one item to a line; column names without quotes, blanks, commas, parentheses and backslashes.
- DumpMerge.RunSerialDump: a stop request between two tables is not a step; a stopped dump is the dump of a shorter work list.
- DumpMerge.ParallelEqualsSerial: sinks are logs of operations; compression, archive entries as bytes and temporary files are not modelled.
- DumpImport.ParallelImportOfDump: about single-file dumps; reading the entries of an archive in name order is not modelled.
- Sharding.ShardedRowsAreSerial: about rows across INSERTs, not bytes, because shards move statement boundaries.
- DeferIndex.SplitTwice: no `)` precedes the first `(` outside quotes, as in every CREATE TABLE.
- DeferSettles.DeferralSettles: a comment inside the column list is excluded; an item takes its comment along, and at the end of the ALTER a line comment takes the `;` (CommentTakesEnd).
- DumpInline.ImportDump: the delimiters that the DDL installs, if any, are ones the splitter can cut (SafeRun), and there is no user stop.
- Csv.FileReads: about rows as a query returns them, one value for each column asked for and the same one when a column is asked for twice.
- ExportPaging.EndsComplete: without a key column the rows are paged by offset, and the row order is taken to be stable.
- TableCopy.CopyRanges: pauses are not steps; a stop may come between any two INSERTs, where a worker of the source looks for it before each page.
- Gate.LostIff: `TransferControl::reset`, which opens the gate without announcing it, is called before a transfer starts and is not a step; a stop request opens the gate like a resume.
- RequoteReading.TokensKeptIff: comments are not tokens, so an apostrophe in a comment opens a string for the readings as it does for the rewriters; PostgreSQL's E-strings and dollar quotes are not read.
- Packing.PackPartitions: the cap is about the statement without its terminator, which the dump writer adds.
- Jobs.JobTable.EvictFinished: which jobs run is read once per eviction.
- KnownHosts.Store.Apply: file operations succeed and follow one another; concurrent writers are not modelled.
- `split_postgres`, `deferred_for_target`, `strip_definer` and the totals of `run_parallel`: single loops or near-duplicates of modelled code; stop-on-first-failure of `run_parallel` is not claimed.
- The regular-expression tables of the dialect translation, dialect detection, JSON and XLSX export: no exact meaning to preserve, or library wrappers.
- Tunnels, key encoding, connection importers, guardrails, progress events and the user interface.
