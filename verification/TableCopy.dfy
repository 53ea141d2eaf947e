/**
  Paging a table by its key (`copy_pk_range`, `run_table_copy`,
  `run_table_copy_ranges` in src-tauri/src/data_transfer.rs, `write_table_data`
  and `dump_pk_range_to_temp` in src-tauri/src/sql_dump.rs, and the export loop of
  src-tauri/src/data_export.rs). A table is a sequence strictly sorted by its
  integer key; a query returns the first `limit` rows within its bounds.
*/
module TableCopy {
  import opened Text
  import opened PkRanges

  datatype Row = Row(key: int, cells: seq<string>)

  /** The lower bound of a query: none, `>= low` on the first page, `> last_key` afterwards. */
  datatype From = Everything | AtLeast(low: int) | Above(last: int)

  predicate Keyed(t: seq<Row>) {
    forall i, j :: 0 <= i < j < |t| ==> t[i].key < t[j].key
  }

  predicate Within(r: Row, from: From, high: Option<int>) {
    && (match from
        case Everything => true
        case AtLeast(low) => low <= r.key
        case Above(last) => last < r.key)
    && (high.Some? ==> r.key < high.value)
  }

  /** The rows a query matches, in key order. */
  function Matching(t: seq<Row>, from: From, high: Option<int>): seq<Row> {
    if t == [] then []
    else (if Within(t[0], from, high) then [t[0]] else []) + Matching(t[1..], from, high)
  }

  function Query(t: seq<Row>, from: From, high: Option<int>, limit: nat): seq<Row> {
    var m := Matching(t, from, high);
    if |m| <= limit then m else m[..limit]
  }

  lemma {:induction false} MatchingIn(t: seq<Row>, from: From, high: Option<int>)
    ensures forall r :: r in Matching(t, from, high) ==> r in t && Within(r, from, high)
  {
    if t != [] {
      MatchingIn(t[1..], from, high);
    }
  }

  lemma MatchingHead(t: seq<Row>, from: From, high: Option<int>)
    ensures Matching(t, from, high)
         == if t == [] then []
            else if Within(t[0], from, high) then [t[0]] + Matching(t[1..], from, high)
            else Matching(t[1..], from, high)
  {
  }

  lemma {:induction false} MatchingAll(t: seq<Row>, from: From, high: Option<int>)
    requires forall r :: r in t ==> Within(r, from, high)
    ensures Matching(t, from, high) == t
  {
    hide Matching, Within;
    MatchingHead(t, from, high);
    if t != [] {
      assert t[0] in t && forall r :: r in t[1..] ==> r in t;
      MatchingAll(t[1..], from, high);
      assert [t[0]] + t[1..] == t;
    }
  }

  lemma {:induction false} MatchingNone(t: seq<Row>, from: From, high: Option<int>)
    requires forall r :: r in t ==> !Within(r, from, high)
    ensures Matching(t, from, high) == []
  {
    hide Matching, Within;
    MatchingHead(t, from, high);
    if t != [] {
      assert t[0] in t && forall r :: r in t[1..] ==> r in t;
      MatchingNone(t[1..], from, high);
    }
  }

  lemma DropCons(r: Row, rest: seq<Row>, n: nat)
    requires 0 < n <= |rest| + 1
    ensures ([r] + rest)[n..] == rest[n - 1..] && (n > 1 ==> ([r] + rest)[n - 1] == rest[n - 2])
  {
  }

  /** Behind its first matching row a query matches what it matches in the rest of the table. */
  lemma {:induction false} PastHead(t: seq<Row>, from: From, high: Option<int>)
    requires Keyed(t) && t != [] && Within(t[0], from, high)
    ensures Matching(t, Above(t[0].key), high) == Matching(t[1..], from, high)
  {
    hide Matching;
    LaterKeys(t);
    MatchingHead(t, Above(t[0].key), high);
    PastFirst(t[1..], from, high, t[0].key);
  }

  /** Behind a row further on, the head of the table no longer matters. */
  lemma SkipHead(t: seq<Row>, last: int, high: Option<int>)
    requires t != [] && t[0].key <= last
    ensures Matching(t, Above(last), high) == Matching(t[1..], Above(last), high)
  {
    hide Matching;
    MatchingHead(t, Above(last), high);
  }

  lemma LaterMatch(t: seq<Row>, from: From, high: Option<int>, i: nat)
    requires Keyed(t) && t != [] && i < |Matching(t[1..], from, high)|
    ensures t[0].key < Matching(t[1..], from, high)[i].key
  {
    hide Matching;
    LaterKeys(t);
    MatchingIn(t[1..], from, high);
    assert Matching(t[1..], from, high)[i] in Matching(t[1..], from, high);
  }

  /** The next page starts right after the last key of this one. */
  lemma {:induction false} NextPage(t: seq<Row>, from: From, high: Option<int>, n: nat, last: int)
    requires Keyed(t) && 0 < n <= |Matching(t, from, high)| && last == Matching(t, from, high)[n - 1].key
    ensures Matching(t, Above(last), high) == Matching(t, from, high)[n..]
  {
    assert t != [];
    hide Matching, Keyed, Within;
    var rest, mr := t[1..], Matching(t[1..], from, high);
    MatchingHead(t, from, high);
    LaterKeys(t);
    if Within(t[0], from, high) {
      DropCons(t[0], mr, n);
      if n == 1 {
        PastHead(t, from, high);
      } else {
        LaterMatch(t, from, high, n - 2);
        SkipHead(t, last, high);
        NextPage(rest, from, high, n - 1, last);
      }
    } else {
      LaterMatch(t, from, high, n - 1);
      SkipHead(t, last, high);
      NextPage(rest, from, high, n, last);
    }
  }

  lemma LaterKeys(t: seq<Row>)
    requires Keyed(t) && t != []
    ensures Keyed(t[1..]) && forall r :: r in t[1..] ==> t[0].key < r.key
  {
    forall r | r in t[1..] ensures t[0].key < r.key {
      var j :| 0 <= j < |t[1..]| && t[1..][j] == r;
      assert t[0].key < t[j + 1].key;
    }
  }

  lemma {:induction false} PastFirst(t: seq<Row>, from: From, high: Option<int>, last: int)
    requires forall r :: r in t ==> last < r.key
    requires match from case Everything => true case AtLeast(low) => low <= last case Above(k) => k < last
    ensures Matching(t, Above(last), high) == Matching(t, from, high)
  {
    if t != [] {
      assert t[0] in t && forall r :: r in t[1..] ==> r in t;
      PastFirst(t[1..], from, high, last);
    }
  }

  // ------------------------------------------------------------------ one worker

  /** One worker's loop state: what it has sent, and where its next page starts. */
  datatype Cursor = Cursor(sent: seq<Row>, from: From, finished: bool)

  /** Sent so far, plus what its query still matches, is its share of the table. */
  predicate OnTrack(t: seq<Row>, c: Cursor, start: From, high: Option<int>) {
    && c.sent + (if c.finished then [] else Matching(t, c.from, high)) == Matching(t, start, high)
  }

  /** One turn of the paging loop: fetch a page, send it, move the key. */
  method Page(t: seq<Row>, c: Cursor, ghost start: From, high: Option<int>, chunk: nat)
    returns (next: Cursor, batch: seq<Row>)
    requires Keyed(t) && chunk > 0 && !c.finished && OnTrack(t, c, start, high)
    ensures OnTrack(t, next, start, high) && next.sent == c.sent + batch
    ensures next.finished || |Matching(t, next.from, high)| < |Matching(t, c.from, high)|
  {
    batch := Query(t, c.from, high, chunk);
    ghost var m := Matching(t, c.from, high);
    if batch == [] {
      assert c.sent + [] == c.sent;
      return c.(finished := true), batch;
    }
    next := Cursor(c.sent + batch, Above(batch[|batch| - 1].key), |batch| < chunk);
    NextPage(t, c.from, high, |batch|, batch[|batch| - 1].key);
    assert m == batch + m[|batch|..];
    Assoc(c.sent, batch, m[|batch|..]);
    assert |batch| < chunk ==> m[|batch|..] == [];
  }

  /**
    The keyset loop of one range, or of the whole table without bounds: every
    matching row exactly once, in key order. A stop request leaves a prefix.
  */
  method CopyRange(t: seq<Row>, start: From, high: Option<int>, chunk: nat) returns (sent: seq<Row>, stopped: bool)
    requires Keyed(t) && chunk > 0
    ensures sent <= Matching(t, start, high)
    ensures !stopped ==> sent == Matching(t, start, high)
  {
    var c := Cursor([], start, false);
    stopped := false;
    assert [] + Matching(t, start, high) == Matching(t, start, high);
    while !c.finished
      invariant OnTrack(t, c, start, high)
      decreases !c.finished, |Matching(t, c.from, high)|
    {
      if * {
        stopped := true;
        break;
      }
      var next, _ := Page(t, c, start, high, chunk);
      c := next;
    }
    sent := c.sent;
  }

  // ----------------------------------------------------- all workers, any schedule

  /** The rows of the table that fall into each range, one range after the other. */
  function Shares(t: seq<Row>, rs: seq<Range>): seq<Row> {
    if rs == [] then []
    else Matching(t, AtLeast(rs[0].low), Some(rs[0].high)) + Shares(t, rs[1..])
  }

  /** Two adjacent ranges together match what the range over both matches. */
  lemma {:induction false} MatchingSplit(t: seq<Row>, low: int, mid: int, high: int)
    requires Keyed(t) && low <= mid <= high
    ensures Matching(t, AtLeast(low), Some(mid)) + Matching(t, AtLeast(mid), Some(high))
         == Matching(t, AtLeast(low), Some(high))
  {
    hide Matching;
    if t != [] {
      var rest := t[1..];
      LaterKeys(t);
      MatchingSplit(rest, low, mid, high);
      var a, b := Matching(rest, AtLeast(low), Some(mid)), Matching(rest, AtLeast(mid), Some(high));
      MatchingHead(t, AtLeast(low), Some(mid));
      MatchingHead(t, AtLeast(mid), Some(high));
      MatchingHead(t, AtLeast(low), Some(high));
      if low <= t[0].key < mid {
        Assoc([t[0]], a, b);
      } else if mid <= t[0].key < high {
        MatchingNone(rest, AtLeast(low), Some(mid));
        assert [] + ([t[0]] + b) == [t[0]] + b && [] + b == b;
      }
    } else {
      MatchingHead(t, AtLeast(low), Some(mid));
      MatchingHead(t, AtLeast(mid), Some(high));
      MatchingHead(t, AtLeast(low), Some(high));
    }
  }

  /** Tiling ranges share out the table: concatenated, the shares are the table itself. */
  lemma {:induction false} SharesPartition(t: seq<Row>, rs: seq<Range>, low: int, high: int)
    requires Keyed(t) && Tiles(rs, low, high)
    ensures Shares(t, rs) == Matching(t, AtLeast(low), Some(high))
  {
    if rs == [] {
      assert forall r :: r in t ==> !Within(r, AtLeast(low), Some(high));
      MatchingNone(t, AtLeast(low), Some(high));
    } else {
      TilesWithin(rs[1..], rs[0].high, high);
      SharesPartition(t, rs[1..], rs[0].high, high);
      MatchingSplit(t, low, rs[0].high, high);
    }
  }

  /** What a worker still has to do: one turn to see the end, and a row at a time before that. */
  function Unsent(t: seq<Row>, c: Cursor, r: Range): nat {
    if c.finished then 0 else 1 + |Matching(t, c.from, Some(r.high))|
  }

  function Remaining(t: seq<Row>, cs: seq<Cursor>, rs: seq<Range>): nat
    requires |cs| == |rs|
  {
    if cs == [] then 0 else Unsent(t, cs[0], rs[0]) + Remaining(t, cs[1..], rs[1..])
  }

  function AllSent(cs: seq<Cursor>): seq<Row> {
    if cs == [] then [] else cs[0].sent + AllSent(cs[1..])
  }

  predicate AllOnTrack(t: seq<Row>, cs: seq<Cursor>, rs: seq<Range>) {
    && |cs| == |rs|
    && forall w :: 0 <= w < |cs| ==> OnTrack(t, cs[w], AtLeast(rs[w].low), Some(rs[w].high))
  }

  lemma {:induction false} RemainingShrinks(t: seq<Row>, cs: seq<Cursor>, rs: seq<Range>, w: nat, next: Cursor)
    requires |cs| == |rs| && w < |cs| && !cs[w].finished
    requires next.finished || |Matching(t, next.from, Some(rs[w].high))| < |Matching(t, cs[w].from, Some(rs[w].high))|
    ensures Remaining(t, cs[w := next], rs) < Remaining(t, cs, rs)
  {
    if w == 0 {
      assert cs[w := next][1..] == cs[1..];
    } else {
      assert cs[w := next][1..] == cs[1..][w - 1 := next];
      RemainingShrinks(t, cs[1..], rs[1..], w - 1, next);
    }
  }

  lemma {:induction false} SentGrows(cs: seq<Cursor>, w: nat, next: Cursor, batch: seq<Row>)
    requires w < |cs| && next.sent == cs[w].sent + batch
    ensures multiset(AllSent(cs[w := next])) == multiset(AllSent(cs)) + multiset(batch)
  {
    if w == 0 {
      assert cs[w := next][1..] == cs[1..];
    } else {
      assert cs[w := next][1..] == cs[1..][w - 1 := next];
      SentGrows(cs[1..], w - 1, next, batch);
    }
  }

  lemma {:induction false} FinishedShares(t: seq<Row>, cs: seq<Cursor>, rs: seq<Range>)
    requires AllOnTrack(t, cs, rs) && forall w :: 0 <= w < |cs| ==> cs[w].finished
    ensures AllSent(cs) == Shares(t, rs)
  {
    if cs != [] {
      assert OnTrack(t, cs[0], AtLeast(rs[0].low), Some(rs[0].high));
      assert cs[0].sent + [] == cs[0].sent;
      forall w | 0 <= w < |cs[1..]| ensures OnTrack(t, cs[1..][w], AtLeast(rs[1..][w].low), Some(rs[1..][w].high)) {
        assert OnTrack(t, cs[w + 1], AtLeast(rs[w + 1].low), Some(rs[w + 1].high));
      }
      FinishedShares(t, cs[1..], rs[1..]);
    }
  }

  /** Fresh cursors, one per range. */
  function Cursors(rs: seq<Range>): seq<Cursor> {
    seq(|rs|, w requires 0 <= w < |rs| => Cursor([], AtLeast(rs[w].low), false))
  }

  lemma CursorsOnTrack(t: seq<Row>, rs: seq<Range>)
    ensures AllOnTrack(t, Cursors(rs), rs) && AllSent(Cursors(rs)) == []
  {
    NothingSent(Cursors(rs));
    forall w | 0 <= w < |rs| ensures OnTrack(t, Cursors(rs)[w], AtLeast(rs[w].low), Some(rs[w].high)) {
      var m := Matching(t, AtLeast(rs[w].low), Some(rs[w].high));
      assert [] + m == m;
    }
  }

  lemma {:induction false} MatchingAppend(a: seq<Row>, b: seq<Row>, from: From, high: Option<int>)
    ensures Matching(a + b, from, high) == Matching(a, from, high) + Matching(b, from, high)
  {
    if a == [] {
      assert a + b == b;
    } else {
      hide Within;
      DropPrefix(a, b, 1);
      MatchingAppend(a[1..], b, from, high);
      Assoc(if Within(a[0], from, high) then [a[0]] else [], Matching(a[1..], from, high), Matching(b, from, high));
    }
  }

  /** The rows of a text of rows that fall into the `w`-th range, in the order they stand there. */
  function Part(rows: seq<Row>, rs: seq<Range>, w: nat): seq<Row>
    requires w < |rs|
  {
    Matching(rows, AtLeast(rs[w].low), Some(rs[w].high))
  }

  /** In each range: what has arrived, and what its worker holds of the page it fetched, is all it has fetched. */
  predicate Arrived(target: seq<Row>, cs: seq<Cursor>, held: seq<seq<Row>>, rs: seq<Range>) {
    |cs| == |held| == |rs| && forall w :: 0 <= w < |cs| ==> Part(target, rs, w) + held[w] == cs[w].sent
  }

  /** A worker's page lies in its own range. */
  lemma PageIsOwn(t: seq<Row>, c: Cursor, low: int, high: int)
    requires OnTrack(t, c, AtLeast(low), Some(high))
    ensures forall r :: r in c.sent ==> Within(r, AtLeast(low), Some(high))
  {
    MatchingIn(t, AtLeast(low), Some(high));
    hide Matching, Within;
    var all := Matching(t, AtLeast(low), Some(high));
    forall r | r in c.sent ensures r in all {
    }
  }

  /** Rows of one range, sent, change what has arrived in that range and in no other. */
  lemma RowsArrive(target: seq<Row>, rs: seq<Range>, v: nat, w: nat, batch: seq<Row>, low: int, high: int)
    requires Tiles(rs, low, high) && v < |rs| && w < |rs|
    requires forall r :: r in batch ==> Within(r, AtLeast(rs[w].low), Some(rs[w].high))
    ensures Part(target + batch, rs, v) == Part(target, rs, v) + if v == w then batch else []
  {
    TilesWithin(rs, low, high);
    MatchingAppend(target, batch, AtLeast(rs[v].low), Some(rs[v].high));
    if v == w {
      MatchingAll(batch, AtLeast(rs[v].low), Some(rs[v].high));
    } else {
      forall r | r in batch ensures !Within(r, AtLeast(rs[v].low), Some(rs[v].high)) {
        var i := TilesExactlyOnce(rs, low, high, r.key);
      }
      MatchingNone(batch, AtLeast(rs[v].low), Some(rs[v].high));
    }
  }

  /** One INSERT of a worker: some of the rows it holds, from the front. */
  lemma SendKeeps(t: seq<Row>, target: seq<Row>, cs: seq<Cursor>, held: seq<seq<Row>>, rs: seq<Range>, w: nat, k: nat,
                  low: int, high: int)
    requires Arrived(target, cs, held, rs) && AllOnTrack(t, cs, rs) && Tiles(rs, low, high)
    requires w < |rs| && k <= |held[w]|
    ensures Arrived(target + held[w][..k], cs, held[w := held[w][k..]], rs)
  {
    var batch, less := held[w][..k], held[w := held[w][k..]];
    assert OnTrack(t, cs[w], AtLeast(rs[w].low), Some(rs[w].high)) && Part(target, rs, w) + held[w] == cs[w].sent;
    PageIsOwn(t, cs[w], rs[w].low, rs[w].high);
    forall r | r in batch ensures Within(r, AtLeast(rs[w].low), Some(rs[w].high)) {
      assert r in held[w] && r in Part(target, rs, w) + held[w];
    }
    hide Part, Within, Tiles, AllOnTrack, OnTrack;
    forall v | 0 <= v < |rs| ensures Part(target + batch, rs, v) + less[v] == cs[v].sent {
      RowsArrive(target, rs, v, w, batch, low, high);
      assert Part(target, rs, v) + held[v] == cs[v].sent;
      if v == w {
        assert batch + held[w][k..] == held[w];
        Assoc(Part(target, rs, w), batch, held[w][k..]);
      } else {
        assert Part(target, rs, v) + [] == Part(target, rs, v);
      }
    }
  }

  /** A page fetched is held before it is sent. */
  lemma FetchKeeps(target: seq<Row>, cs: seq<Cursor>, held: seq<seq<Row>>, rs: seq<Range>, w: nat, next: Cursor,
                   batch: seq<Row>)
    requires Arrived(target, cs, held, rs) && w < |rs| && held[w] == [] && next.sent == cs[w].sent + batch
    ensures Arrived(target, cs[w := next], held[w := batch], rs)
  {
    hide Part;
    assert Part(target, rs, w) + [] == cs[w].sent;
  }

  lemma HeadMoves(rows: seq<Row>, a: seq<seq<Row>>, w: nat, row: seq<Row>)
    requires 0 < w <= |a|
    ensures ([rows] + a)[w := row] == [rows] + a[w - 1 := row]
    ensures Flatten([rows] + a) == rows + Flatten(a)
    ensures multiset(Flatten([rows] + a)) == multiset(rows) + multiset(Flatten(a))
  {
    assert ([rows] + a)[1..] == a;
  }

  /** Rows in front of what a worker holds are in front of nothing else. */
  lemma {:induction false} HeldTake(held: seq<seq<Row>>, w: nat, batch: seq<Row>, less: seq<Row>)
    requires w < |held| && held[w] == batch + less
    ensures multiset(Flatten(held)) == multiset(batch) + multiset(Flatten(held[w := less]))
    ensures |Flatten(held)| == |batch| + |Flatten(held[w := less])|
  {
    var more := held[1..];
    assert held == [held[0]] + more;
    if w == 0 {
      assert held[w := less] == [less] + more && ([less] + more)[1..] == more;
    } else {
      HeldTake(more, w - 1, batch, less);
      hide Flatten;
      HeadMoves(held[0], more, w, less);
      HeadMoves(held[0], more[w - 1 := less], w, less);
    }
  }

  lemma HeldPut(held: seq<seq<Row>>, w: nat, batch: seq<Row>)
    requires w < |held| && held[w] == []
    ensures multiset(Flatten(held[w := batch])) == multiset(Flatten(held)) + multiset(batch)
  {
    var full := held[w := batch];
    assert batch == batch + [] && full[w := []] == held;
    HeldTake(full, w, batch, []);
  }

  lemma {:induction false} NothingHeld(held: seq<seq<Row>>)
    requires forall w :: 0 <= w < |held| ==> held[w] == []
    ensures Flatten(held) == []
  {
    if held != [] {
      NothingHeld(held[1..]);
    }
  }

  lemma NothingArrived(rs: seq<Range>)
    ensures Arrived([], Cursors(rs), seq(|rs|, w => []), rs)
  {
  }

  /** Each range of the target is a prefix of that range of the table, and all of it where the worker is done. */
  lemma PartsArrived(t: seq<Row>, target: seq<Row>, cs: seq<Cursor>, held: seq<seq<Row>>, rs: seq<Range>)
    requires AllOnTrack(t, cs, rs) && Arrived(target, cs, held, rs)
    ensures forall w :: 0 <= w < |rs| ==> Part(target, rs, w) <= Part(t, rs, w)
    ensures forall w :: 0 <= w < |rs| && cs[w].finished && held[w] == [] ==> Part(target, rs, w) == Part(t, rs, w)
  {
    forall w | 0 <= w < |rs|
      ensures Part(target, rs, w) <= Part(t, rs, w)
      ensures cs[w].finished && held[w] == [] ==> Part(target, rs, w) == Part(t, rs, w)
    {
      assert OnTrack(t, cs[w], AtLeast(rs[w].low), Some(rs[w].high));
      assert Part(target, rs, w) + held[w] == cs[w].sent <= Part(t, rs, w);
      assert cs[w].finished ==> cs[w].sent + [] == cs[w].sent;
    }
  }

  /** What all workers have fetched is part of their shares. */
  lemma {:induction false} FetchedWithin(t: seq<Row>, cs: seq<Cursor>, rs: seq<Range>)
    requires AllOnTrack(t, cs, rs)
    ensures multiset(AllSent(cs)) <= multiset(Shares(t, rs))
  {
    if cs != [] {
      var share := Matching(t, AtLeast(rs[0].low), Some(rs[0].high));
      assert OnTrack(t, cs[0], AtLeast(rs[0].low), Some(rs[0].high)) && cs[0].sent <= share;
      assert share == cs[0].sent + share[|cs[0].sent|..];
      forall w | 0 <= w < |cs[1..]| ensures OnTrack(t, cs[1..][w], AtLeast(rs[1..][w].low), Some(rs[1..][w].high)) {
        assert OnTrack(t, cs[w + 1], AtLeast(rs[w + 1].low), Some(rs[w + 1].high));
      }
      FetchedWithin(t, cs[1..], rs[1..]);
    }
  }

  predicate Busy(c: Cursor, held: seq<Row>) {
    !c.finished || held != []
  }

  /** The state between two turns. */
  predicate Running(t: seq<Row>, target: seq<Row>, cs: seq<Cursor>, held: seq<seq<Row>>, rs: seq<Range>) {
    && AllOnTrack(t, cs, rs) && Arrived(target, cs, held, rs)
    && multiset(target) + multiset(Flatten(held)) == multiset(AllSent(cs))
  }

  lemma FetchRuns(t: seq<Row>, target: seq<Row>, cs: seq<Cursor>, held: seq<seq<Row>>, rs: seq<Range>, w: nat,
                  next: Cursor, batch: seq<Row>)
    requires Running(t, target, cs, held, rs) && w < |rs| && held[w] == [] && next.sent == cs[w].sent + batch
    requires OnTrack(t, next, AtLeast(rs[w].low), Some(rs[w].high))
    ensures Running(t, target, cs[w := next], held[w := batch], rs)
  {
    hide Part, OnTrack, AllSent, Flatten;
    FetchKeeps(target, cs, held, rs, w, next, batch);
    SentGrows(cs, w, next, batch);
    HeldPut(held, w, batch);
    assert AllOnTrack(t, cs[w := next], rs);
  }

  /** A worker that holds nothing fetches its next page. */
  method FetchTurn(t: seq<Row>, ghost target: seq<Row>, cs: seq<Cursor>, held: seq<seq<Row>>, rs: seq<Range>, w: nat,
                   chunk: nat)
    returns (cs': seq<Cursor>, held': seq<seq<Row>>)
    requires Keyed(t) && chunk > 0 && Running(t, target, cs, held, rs) && w < |rs| && !cs[w].finished && held[w] == []
    ensures Running(t, target, cs', held', rs) && Remaining(t, cs', rs) < Remaining(t, cs, rs)
  {
    assert |cs| == |rs| == |held| && OnTrack(t, cs[w], AtLeast(rs[w].low), Some(rs[w].high));
    hide Keyed, Matching, Running, OnTrack, Remaining;
    var next, batch := Page(t, cs[w], AtLeast(rs[w].low), Some(rs[w].high), chunk);
    FetchRuns(t, target, cs, held, rs, w, next, batch);
    RemainingShrinks(t, cs, rs, w, next);
    cs', held' := cs[w := next], held[w := batch];
  }

  /** A worker that holds rows sends one INSERT of them. */
  method SendTurn(ghost t: seq<Row>, target: seq<Row>, ghost cs: seq<Cursor>, held: seq<seq<Row>>, ghost rs: seq<Range>,
                  w: nat, ghost low: int, ghost high: int)
    returns (target': seq<Row>, held': seq<seq<Row>>)
    requires Running(t, target, cs, held, rs) && Tiles(rs, low, high) && w < |held| && held[w] != []
    ensures Running(t, target', cs, held', rs) && |Flatten(held')| < |Flatten(held)|
  {
    hide Part, OnTrack, Tiles, AllSent, Flatten;
    var k :| 0 < k <= |held[w]|;
    var batch, less := held[w][..k], held[w][k..];
    assert held[w] == batch + less;
    SendKeeps(t, target, cs, held, rs, w, k, low, high);
    HeldTake(held, w, batch, less);
    target', held' := target + batch, held[w := less];
  }

  lemma StartsRunning(t: seq<Row>, rs: seq<Range>)
    ensures Running(t, [], Cursors(rs), seq(|rs|, w => []), rs)
  {
    CursorsOnTrack(t, rs);
    NothingArrived(rs);
    NothingHeld(seq(|rs|, w => []));
  }

  /** What has arrived, at any moment and when all are done. */
  lemma HasArrived(t: seq<Row>, target: seq<Row>, cs: seq<Cursor>, held: seq<seq<Row>>, rs: seq<Range>)
    requires Running(t, target, cs, held, rs)
    ensures multiset(target) <= multiset(Shares(t, rs))
    ensures forall w :: 0 <= w < |rs| ==> Part(target, rs, w) <= Part(t, rs, w)
    ensures (forall w :: 0 <= w < |cs| ==> !Busy(cs[w], held[w])) ==>
              && multiset(target) == multiset(Shares(t, rs))
              && forall w :: 0 <= w < |rs| ==> Part(target, rs, w) == Part(t, rs, w)
  {
    hide Part, OnTrack, AllSent, Shares;
    FetchedWithin(t, cs, rs);
    PartsArrived(t, target, cs, held, rs);
    if forall w :: 0 <= w < |cs| ==> !Busy(cs[w], held[w]) {
      NothingHeld(held);
      FinishedShares(t, cs, rs);
    }
  }

  /**
    Until all are done or the user stops, some worker, whichever, takes its next turn: it
    fetches a page, or sends one INSERT of the rows it holds. The rows of each range
    arrive in key order, between the rows of the others; a stop leaves a prefix of each.
  */
  method RunSchedule(t: seq<Row>, rs: seq<Range>, chunk: nat, ghost low: int, ghost high: int)
    returns (target: seq<Row>, stopped: bool)
    requires Keyed(t) && chunk > 0 && Tiles(rs, low, high)
    ensures multiset(target) <= multiset(Shares(t, rs))
    ensures forall w :: 0 <= w < |rs| ==> Part(target, rs, w) <= Part(t, rs, w)
    ensures !stopped ==> multiset(target) == multiset(Shares(t, rs))
    ensures !stopped ==> forall w :: 0 <= w < |rs| ==> Part(target, rs, w) == Part(t, rs, w)
  {
    hide Tiles, Part, Keyed, AllOnTrack;
    var now := Cursors(rs);
    var held: seq<seq<Row>> := seq(|rs|, w => []);
    target, stopped := [], false;
    StartsRunning(t, rs);
    while exists w :: 0 <= w < |now| && Busy(now[w], held[w])
      invariant Running(t, target, now, held, rs)
      decreases Remaining(t, now, rs), |Flatten(held)|
    {
      if * {
        stopped := true;
        break;
      }
      var w :| 0 <= w < |now| && Busy(now[w], held[w]);
      if held[w] == [] {
        now, held := FetchTurn(t, target, now, held, rs, w, chunk);
      } else {
        target, held := SendTurn(t, target, now, held, rs, w, low, high);
      }
    }
    HasArrived(t, target, now, held, rs);
  }

  lemma SharesWhole(t: seq<Row>, rs: seq<Range>)
    requires Keyed(t) && t != [] && Tiles(rs, t[0].key, t[|t| - 1].key + 1)
    ensures Shares(t, rs) == t
  {
    var low, high := t[0].key, t[|t| - 1].key + 1;
    forall r | r in t ensures Within(r, AtLeast(low), Some(high)) {
      var j :| 0 <= j < |t| && t[j] == r;
    }
    hide Matching, Shares, Tiles, Within;
    SharesPartition(t, rs, low, high);
    MatchingAll(t, AtLeast(low), Some(high));
  }

  /**
    The range-parallel copy, for every schedule: the target receives every row of the
    table exactly once; the rows of each worker's range stand in it in key order, as
    they stand in the table; and the ranges, one after the other, are the table. A stop
    leaves a prefix of each range and no row twice.
  */
  method CopyRanges(t: seq<Row>, chunk: nat, workers: nat)
    returns (target: seq<Row>, stopped: bool, ghost rs: seq<Range>)
    requires Keyed(t) && chunk > 0 && workers > 0
    ensures multiset(target) <= multiset(t) && (!stopped ==> multiset(target) == multiset(t))
    ensures |rs| <= workers && Shares(t, rs) == t
    ensures forall w :: 0 <= w < |rs| ==> Part(target, rs, w) <= Part(t, rs, w) && Keyed(Part(t, rs, w))
    ensures !stopped ==> forall w :: 0 <= w < |rs| ==> Part(target, rs, w) == Part(t, rs, w)
    ensures |t| > 1 ==>
              rs == RangesFrom(t[0].key, t[|t| - 1].key, PkRanges.Step(t[0].key, t[|t| - 1].key, workers), workers)
  {
    hide Shares, Tiles, Matching, RangesFrom, AllOnTrack;
    if t == [] || t[0].key >= t[|t| - 1].key {
      rs := if t == [] then [] else [Range(t[0].key, t[0].key + 1)];
      OneRange(t, rs);
      target, stopped := CopyRange(t, Everything, None, chunk);
      MatchingAll(t, Everything, None);
      ShortCopy(t, target, rs);
    } else {
      var low, high := t[0].key, t[|t| - 1].key;
      var ranges := SplitPkRanges(low, high, workers);
      RangesPartition(low, high, workers);
      rs := ranges;
      SharesWhole(t, rs);
      target, stopped := RunSchedule(t, ranges, chunk, low, high + 1);
    }
    forall w | 0 <= w < |rs| ensures Keyed(Part(t, rs, w)) {
      MatchingKeyed(t, AtLeast(rs[w].low), Some(rs[w].high));
    }
  }

  /** A table of one row or none: what was sent is all of it or nothing. */
  lemma ShortCopy(t: seq<Row>, target: seq<Row>, rs: seq<Range>)
    requires |t| <= 1 && target <= t && rs == if t == [] then [] else [Range(t[0].key, t[0].key + 1)]
    ensures multiset(target) <= multiset(t)
    ensures forall w :: 0 <= w < |rs| ==> Part(target, rs, w) <= Part(t, rs, w)
  {
    assert target == t || target == [];
  }

  lemma OneRange(t: seq<Row>, rs: seq<Range>)
    requires Keyed(t) && (t == [] || t[0].key >= t[|t| - 1].key)
    requires rs == if t == [] then [] else [Range(t[0].key, t[0].key + 1)]
    ensures Shares(t, rs) == t && |t| <= 1
  {
    if t != [] {
      assert rs[1..] == [];
      SharesWhole(t, rs);
    }
  }

  /** The unpartitioned copy without a stop request. */
  method CopyWhole(t: seq<Row>, chunk: nat) returns (sent: seq<Row>)
    requires Keyed(t) && chunk > 0
    ensures sent == t
  {
    var c := Cursor([], Everything, false);
    assert [] + Matching(t, Everything, None) == Matching(t, Everything, None);
    while !c.finished
      invariant OnTrack(t, c, Everything, None)
      decreases !c.finished, |Matching(t, c.from, None)|
    {
      var next, _ := Page(t, c, Everything, None, chunk);
      c := next;
    }
    MatchingAll(t, Everything, None);
    assert c.sent + [] == c.sent;
    sent := c.sent;
  }

  lemma {:induction false} NothingSent(cs: seq<Cursor>)
    requires forall w :: 0 <= w < |cs| ==> cs[w].sent == []
    ensures AllSent(cs) == []
  {
    if cs != [] {
      NothingSent(cs[1..]);
    }
  }

  lemma KeyedCons(r: Row, m: seq<Row>)
    requires Keyed(m) && forall x :: x in m ==> r.key < x.key
    ensures Keyed([r] + m)
  {
  }

  lemma {:induction false} MatchingKeyed(t: seq<Row>, from: From, high: Option<int>)
    requires Keyed(t)
    ensures Keyed(Matching(t, from, high))
  {
    if t != [] {
      hide Matching, Keyed;
      LaterKeys(t);
      MatchingKeyed(t[1..], from, high);
      MatchingIn(t[1..], from, high);
      MatchingHead(t, from, high);
      KeyedCons(t[0], Matching(t[1..], from, high));
    }
  }
}
