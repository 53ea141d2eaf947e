/**
  The splitter emits the same items however its input is cut into chunks. The
  tail held back at the end of a chunk is long enough for every fixed token; the
  one token with no fixed length is the delimiter, so the statement is about runs
  that only ever adopt delimiters the tail can cover, and that condition is exact.
*/
module ChunkIndependence {
  import opened Text
  import opened Splitter

  /** An earlier branch of the scanner always takes the first byte of `d`, so `d` never ends a statement. */
  predicate Shadowed(d: string)
    requires d != ""
  {
    || IsQuote(d[0]) || d[0] == '#'
    || (|d| > 1 && d[0] == '-' && d[1] == '-')
    || (|d| > 1 && d[0] == '/' && d[1] == '*')
  }

  /** A delimiter that the held-back tail covers, or one that can never match. */
  predicate SafeDelim(d: string)
    requires d != ""
  {
    |d| <= SAFE_TAIL + 1 || Shadowed(d)
  }

  /** Every delimiter in force while `data` is read in one go is safe. */
  predicate SafeRun(st: State, data: string)
    requires st.delim != ""
    decreases |data|, if st.mode.Line? then 1 else 0
  {
    && SafeDelim(st.delim)
    && (data != "" ==>
          var t := Step(st, data);
          SafeRun(t.st, data[t.n..]))
  }

  /** What feeding some chunks and then a final one emits. */
  function FeedAll(st: State, carry: string, chunks: seq<string>, last: string): seq<Item>
    requires st.delim != ""
    decreases |chunks|
  {
    if chunks == [] then Whole(st, carry + last)
    else
      var r := Scan(st, carry + chunks[0], SAFE_TAIL);
      r.items + FeedAll(r.st, r.carry, chunks[1..], last)
  }

  // ------------------------------------------------------------------- locality

  /** With more than the tail in view, a step cannot see the end of the chunk. */
  lemma StepLocal(st: State, rest: string, more: string)
    requires st.delim != "" && SafeDelim(st.delim) && |rest| > SAFE_TAIL
    ensures Step(st, rest + more) == Step(st, rest)
  {
    var all := rest + more;
    assert all[0] == rest[0] && all[1] == rest[1];
    if st.mode.Normal? {
      assert AtWord(all, "DELIMITER") == AtWord(rest, "DELIMITER") by {
        assert forall k :: 0 <= k <= 9 ==> all[k] == rest[k];
      }
      if |st.delim| <= |rest| {
        assert all[..|st.delim|] == rest[..|st.delim|];
      } else if At(all, st.delim) {
        assert st.delim[0] == all[0] && st.delim[1] == all[1];
      }
    }
  }

  lemma WholeTurn(st: State, data: string)
    requires st.delim != "" && data != ""
    ensures var t := Step(st, data);
            Whole(st, data) == t.items + Whole(t.st, data[t.n..])
  {
    var t := Step(st, data);
    var r := Scan(t.st, data[t.n..], 0);
    Assoc(t.items, r.items, Finish(r.st));
  }

  /** Reading a chunk and going on with what follows is reading both at once. */
  lemma {:induction false} ScanChunk(st: State, rest: string, more: string)
    requires st.delim != "" && SafeRun(st, rest + more)
    ensures var r := Scan(st, rest, SAFE_TAIL);
            && SafeRun(r.st, r.carry + more)
            && Whole(st, rest + more) == r.items + Whole(r.st, r.carry + more)
    decreases |rest|, if st.mode.Line? then 1 else 0
  {
    if |rest| > SAFE_TAIL {
      var t := Step(st, rest);
      StepLocal(st, rest, more);
      DropPrefix(rest, more, t.n);
      ScanChunk(t.st, rest[t.n..], more);
      var r := Scan(t.st, rest[t.n..], SAFE_TAIL);
      WholeTurn(st, rest + more);
      Assoc(t.items, r.items, Whole(r.st, r.carry + more));
    }
  }

  /**
    Chunk independence: any cut of the input, empty and one-byte chunks included,
    emits what one final feed of the whole input emits.
  */
  lemma {:induction false} ChunkIndependent(st: State, carry: string, chunks: seq<string>, last: string)
    requires st.delim != "" && SafeRun(st, carry + Flatten(chunks) + last)
    ensures FeedAll(st, carry, chunks, last) == Whole(st, carry + Flatten(chunks) + last)
    decreases |chunks|
  {
    if chunks == [] {
      assert carry + "" == carry;
    } else {
      var r := Scan(st, carry + chunks[0], SAFE_TAIL);
      var more := Flatten(chunks[1..]);
      Assoc(carry, chunks[0], more);
      Assoc(carry + chunks[0], more, last);
      ScanChunk(st, carry + chunks[0], more + last);
      Assoc(r.carry, more, last);
      ChunkIndependent(r.st, r.carry, chunks[1..], last);
    }
  }

  /** A session with the object itself: chunks one by one, then an empty final feed. */
  method FeedStream(sp: StreamSplitter, chunks: seq<string>) returns (emitted: seq<Item>)
    requires sp.Valid() && sp.carry == "" && SafeRun(sp.Snapshot(), Flatten(chunks))
    modifies sp
    ensures sp.Valid()
    ensures emitted == Whole(old(sp.Snapshot()), Flatten(chunks))
  {
    ghost var st0 := sp.Snapshot();
    assert "" + Flatten(chunks) + "" == Flatten(chunks);
    ChunkIndependent(st0, "", chunks, "");
    emitted := [];
    for k := 0 to |chunks|
      invariant sp.Valid()
      invariant emitted + FeedAll(sp.Snapshot(), sp.carry, chunks[k..], "") == FeedAll(st0, "", chunks, "")
    {
      assert chunks[k..][1..] == chunks[k + 1..];
      ghost var before := emitted;
      var items := sp.Feed(chunks[k], false);
      emitted := emitted + items;
      Assoc(before, items, FeedAll(sp.Snapshot(), sp.carry, chunks[k + 1..], ""));
    }
    var items := sp.Feed("", true);
    emitted := emitted + items;
  }

  // ------------------------------------------------------- the condition is exact

  /** The splitter right after a directive installed the delimiter `d`. */
  function Under(d: string): State {
    State(d, "", "", "", Normal)
  }

  /** No directive replaces the delimiter while `data` is read. */
  predicate KeepsDelim(st: State, data: string)
    requires st.delim != ""
    decreases |data|, if st.mode.Line? then 1 else 0
  {
    data == "" || (
      var t := Step(st, data);
      t.st.delim == st.delim && KeepsDelim(t.st, data[t.n..]))
  }

  lemma {:induction false} KeptIsSafe(st: State, data: string)
    requires st.delim != "" && SafeDelim(st.delim) && KeepsDelim(st, data)
    ensures SafeRun(st, data)
    decreases |data|, if st.mode.Line? then 1 else 0
  {
    if data != "" {
      var t := Step(st, data);
      KeptIsSafe(t.st, data[t.n..]);
    }
  }

  /** Cutting in two never shows, for any text read under `d` alone. */
  ghost predicate CutsInvisible(d: string)
    requires d != ""
  {
    forall a: string, b: string :: KeepsDelim(Under(d), a + b) ==>
      FeedAll(Under(d), "", [a], b) == Whole(Under(d), a + b)
  }

  /** Bytes already in the buffer survive into the next statement that is emitted. */
  lemma {:induction false} BufferSurvives(st: State, rest: string)
    requires st.delim != ""
    requires |st.buf| >= 2 && !IsSpace(st.buf[0]) && !IsSpace(st.buf[1])
    ensures var out := Whole(st, rest);
            out != [] && (out[0].Marker? || |out[0].text| >= 2)
    decreases |rest|, if st.mode.Line? then 1 else 0
  {
    KeepsTwo(st.buf);
    if rest != "" {
      var t := Step(st, rest);
      if t.items == [] {
        BufferSurvives(t.st, rest[t.n..]);
      }
    }
  }

  lemma KeepsTwo(buf: string)
    requires |buf| >= 2 && !IsSpace(buf[0]) && !IsSpace(buf[1])
    ensures |Trim(buf)| >= 2
  {
    if IsSpace(buf[|buf| - 1]) {
      KeepsTwo(buf[..|buf| - 1]);
      assert TrimStart(buf) == buf;
    }
  }

  lemma LetterTurn(c: char, d: string, rest: string)
    requires (c == 'x' || c == 'y') && d != "" && d[0] != c
    ensures Step(Under(d), [c] + rest) == Turn(Under(d).(buf := [c]), 1, [])
  {
    var all := [c] + rest;
    assert all[0] == c && !At(all, d);
  }

  lemma DelimTurn(c: char, d: string)
    requires (c == 'x' || c == 'y') && d != "" && !Shadowed(d)
    requires Trim([c]) == [c]
    ensures Step(Under(d).(buf := [c]), d) == Turn(Under(d), |d|, [Stmt([c])])
  {
  }

  lemma NothingRead(d: string)
    requires d != ""
    ensures Whole(Under(d), "") == [] && KeepsDelim(Under(d), "")
  {
    assert Trim("") == "";
  }

  /** Read in one go, a one-letter statement before the delimiter comes out as itself. */
  lemma {:induction false} OneGo(c: char, d: string)
    requires (c == 'x' || c == 'y') && d != "" && d[0] != c && !Shadowed(d)
    ensures Whole(Under(d), [c] + d) == [Stmt([c])]
    ensures KeepsDelim(Under(d), [c] + d)
  {
    hide Step, Whole, Shadowed;
    var st1 := Under(d).(buf := [c]);
    assert ([c] + d)[1..] == d && d[|d|..] == "";
    assert Trim([c]) == [c];
    LetterTurn(c, d, d);
    DelimTurn(c, d);
    WholeTurn(Under(d), [c] + d);
    WholeTurn(st1, d);
    NothingRead(d);
    assert KeepsDelim(st1, d);
  }

  /** Cut 17 bytes into the delimiter, its first byte has already become statement text. */
  lemma CutDelim(c: char, d: string)
    requires (c == 'x' || c == 'y') && |d| > SAFE_TAIL + 1 && d[0] != c && !Shadowed(d)
    ensures Scan(Under(d), [c] + d[..17], SAFE_TAIL) == Scanned(Under(d).(buf := [c, d[0]]), d[1..17], [])
  {
    var st := Under(d);
    var st1, st2 := st.(buf := [c]), st.(buf := [c, d[0]]);
    var a, head, tail := [c] + d[..17], d[..17], d[1..17];
    assert a[1..] == head && head[1..] == tail;
    LetterTurn(c, d, head);
    assert head[0] == d[0] && head[1] == d[1];
    assert Step(st1, head) == Turn(st2, 1, []);
    assert Scan(st2, tail, SAFE_TAIL) == Scanned(st2, tail, []);
  }

  lemma FeedTwo(st: State, a: string, b: string)
    requires st.delim != ""
    ensures var r := Scan(st, a, SAFE_TAIL);
            FeedAll(st, "", [a], b) == r.items + Whole(r.st, r.carry + b)
  {
    var r := Scan(st, a, SAFE_TAIL);
    assert "" + a == a && [a][1..] == [];
    assert FeedAll(r.st, r.carry, [], b) == Whole(r.st, r.carry + b);
  }

  lemma CutBuffer(c: char, d: string, b: string) returns (out: seq<Item>)
    requires (c == 'x' || c == 'y') && |d| > SAFE_TAIL + 1 && d[0] != c && !Shadowed(d) && !IsSpace(d[0])
    ensures out == FeedAll(Under(d), "", [[c] + d[..17]], b)
    ensures out != [] && out[0] != Stmt([c])
  {
    var st2 := Under(d).(buf := [c, d[0]]);
    CutDelim(c, d);
    FeedTwo(Under(d), [c] + d[..17], b);
    BufferSurvives(st2, d[1..17] + b);
    out := Whole(st2, d[1..17] + b);
    assert [] + out == out;
  }

  /** Every delimiter too long for the tail has a text that a cut breaks. */
  lemma LongDelimShows(d: string) returns (a: string, b: string)
    requires |d| > SAFE_TAIL + 1 && !Shadowed(d) && !IsSpace(d[0])
    ensures KeepsDelim(Under(d), a + b)
    ensures FeedAll(Under(d), "", [a], b) != Whole(Under(d), a + b)
  {
    var c := if d[0] == 'x' then 'y' else 'x';
    a, b := [c] + d[..17], d[17..];
    assert a + b == [c] + d by {
      assert d[..17] + b == d;
      Assoc([c], d[..17], b);
    }
    OneGo(c, d);
    var cut := CutBuffer(c, d, b);
    assert Whole(Under(d), a + b)[0] == Stmt([c]);
  }

  /** Cuts stay invisible under a delimiter exactly when the tail covers it or it never matches. */
  lemma CutsInvisibleIff(d: string)
    requires Tight(d)
    ensures CutsInvisible(d) <==> SafeDelim(d)
  {
    if SafeDelim(d) {
      forall a: string, b: string | KeepsDelim(Under(d), a + b)
        ensures FeedAll(Under(d), "", [a], b) == Whole(Under(d), a + b)
      {
        KeptIsSafe(Under(d), a + b);
        assert Flatten([a]) == a + Flatten([]) == a;
        assert "" + Flatten([a]) + b == a + b;
        ChunkIndependent(Under(d), "", [a], b);
      }
    } else {
      var a, b := LongDelimShows(d);
    }
  }

  // ------------------------------------------------------- and such delimiters occur

  /** The line that installs a delimiter. */
  function Directive(d: string): string {
    "DELIMITER " + d + "\n"
  }

  /** A directive can name it: tight, on one line. */
  predicate Nameable(d: string) {
    Tight(d) && '\n' !in d && '\r' !in d
  }

  lemma QuietTurn(st: State, all: string, keep: nat, next: State, n: nat)
    requires st.delim != "" && |all| > keep && Step(st, all) == Turn(next, n, [])
    ensures Scan(st, all, keep) == Scan(next, all[n..], keep)
  {
    AfterNothing(Scan(next, all[n..], keep));
  }

  lemma NameTurn(acc: string, c: char, all: string)
    requires all != "" && all[0] == c && c != '\n' && c != '\r' && (acc == "" ==> !IsSpace(c))
    ensures Step(State(";", "", "", acc, Delim), all) == Turn(State(";", "", "", acc + [c], Delim), 1, [])
  {
  }

  lemma NameEnd(acc: string, all: string)
    requires all != "" && all[0] == '\n' && acc != "" && Trim(acc) == acc
    ensures Step(State(";", "", "", acc, Delim), all) == Turn(Under(acc), 1, [])
  {
  }

  lemma {:induction false} NameReads(acc: string, s: string, rest: string, keep: nat)
    requires Nameable(acc + s) && (acc == "" ==> s != "" && !IsSpace(s[0])) && keep <= |rest|
    ensures Scan(State(";", "", "", acc, Delim), s + "\n" + rest, keep) == Scan(Under(acc + s), rest, keep)
    decreases |s|
  {
    hide Scan, Step, IsSpace;
    var st, all := State(";", "", "", acc, Delim), s + "\n" + rest;
    if s == "" {
      assert all == "\n" + rest && all[0] == '\n' && all[1..] == rest && acc + s == acc;
      TrimPadded("", acc, "");
      assert "" + acc + "" == acc;
      NameEnd(acc, all);
      QuietTurn(st, all, keep, Under(acc), 1);
    } else {
      assert all[0] == s[0] && all[1..] == s[1..] + "\n" + rest;
      assert s[0] == (acc + s)[|acc|];
      NameTurn(acc, s[0], all);
      QuietTurn(st, all, keep, st.(delimAcc := acc + [s[0]]), 1);
      assert acc + [s[0]] + s[1..] == acc + s;
      NameReads(acc + [s[0]], s[1..], rest, keep);
    }
  }

  /** From the start, reading a directive puts the splitter under its delimiter. */
  lemma DirectiveReads(d: string, rest: string, keep: nat)
    requires Nameable(d) && keep <= |rest|
    ensures Scan(START, Directive(d) + rest, keep) == Scan(Under(d), rest, keep)
  {
    var all, tail := Directive(d) + rest, d + "\n" + rest;
    assert all == "DELIMITER" + (" " + tail);
    assert forall k :: 0 <= k < 9 ==> all[k] == "DELIMITER"[k];
    assert all[9] == ' ' && all[9..] == " " + tail && (" " + tail)[0] == ' ' && (" " + tail)[1..] == tail;
    var st := START.(mode := Delim);
    assert Step(START, all) == Turn(st, 9, []);
    assert Step(st, " " + tail) == Turn(st, 1, []);
    hide Scan;
    QuietTurn(START, all, keep, st, 9);
    QuietTurn(st, " " + tail, keep, st, 1);
    NameReads("", d, rest, keep);
    assert "" + d == d;
  }

  /**
    So every delimiter too long for the tail that a directive can name, and that can
    match at all, has a script, read from the start, that a cut breaks.
  */
  lemma LongScriptShows(d: string) returns (a: string, b: string)
    requires Nameable(d) && |d| > SAFE_TAIL + 1 && !Shadowed(d)
    ensures FeedAll(START, "", [a], b) != Whole(START, a + b)
  {
    var c := if d[0] == 'x' then 'y' else 'x';
    var text, rest := [c] + d[..17], d[17..];
    assert text + rest == [c] + d by {
      assert d[..17] + rest == d;
      Assoc([c], d[..17], rest);
    }
    a, b := Directive(d) + text, rest;
    hide Scan, Whole, Step, Shadowed;
    Assoc(Directive(d), text, rest);
    DirectiveReads(d, text, SAFE_TAIL);
    DirectiveReads(d, [c] + d, 0);
    OneGo(c, d);
    var cut := CutBuffer(c, d, b);
    FeedTwo(START, a, b);
    FeedTwo(Under(d), text, b);
    SameWhole(START, a + b, Under(d), [c] + d);
  }

  lemma SameWhole(st: State, a: string, st': State, b: string)
    requires st.delim != "" && st'.delim != "" && Scan(st, a, 0) == Scan(st', b, 0)
    ensures Whole(st, a) == Whole(st', b)
  {
  }
}
