/**
  The incremental statement splitter of the SQL importer
  (src-tauri/src/sql_import.rs): a five-mode automaton fed chunk by chunk.
  `Step` is one turn of the scanner on the input that is left, `Scan` the loop
  that leaves a tail of `keep` bytes unread, and `Splitter` the object whose
  buffers survive from one chunk to the next.
*/
module Splitter {
  import opened Text

  datatype Kind = Dump | Table | Data | Indexes | Footer

  datatype Item = Stmt(text: string) | Marker(kind: Kind)

  datatype Mode = Normal | Quote(q: char) | Line | Block | Delim

  /** Everything the splitter remembers between two bytes. */
  datatype State = State(delim: string, buf: string, comment: string, delimAcc: string, mode: Mode)

  /** Bytes held back at the end of a chunk that is not the last one. */
  const SAFE_TAIL: nat := 16

  const START := State(";", "", "", "", Normal)

  // -------------------------------------------------------------------- markers

  function Classify(line: string): Option<Kind> {
    var t := TrimStart(line);
    if !StartsWith(t, "-- @BM:") then None
    else
      var rest := t[7..];
      if StartsWith(rest, "DUMP") then Some(Dump)
      else if StartsWith(rest, "T ") || StartsWith(rest, "T\t") then Some(Table)
      else if StartsWith(rest, "D ") || StartsWith(rest, "D\t") || TrimEnd(rest) == "D" then Some(Data)
      else if TrimEnd(rest) == "I" || StartsWith(rest, "I ") then Some(Indexes)
      else if TrimEnd(rest) == "F" || StartsWith(rest, "F ") then Some(Footer)
      else None
  }

  // ----------------------------------------------------------- one scanner step

  function Flushed(buf: string): seq<Item> {
    if Trim(buf) == "" then [] else [Stmt(Trim(buf))]
  }

  function CommentItems(comment: string): seq<Item> {
    match Classify(comment)
    case Some(k) => [Marker(k)]
    case None => []
  }

  function NewDelim(st: State): string {
    if Trim(st.delimAcc) == "" then st.delim else Trim(st.delimAcc)
  }

  /** The outcome of one step: the new state, the bytes consumed, what was emitted. */
  datatype Turn = Turn(st: State, n: nat, items: seq<Item>)

  predicate LineStart(buf: string) {
    buf == "" || buf[|buf| - 1] == '\n'
  }

  function StepNormal(st: State, rest: string): (t: Turn)
    requires st.mode.Normal? && rest != "" && st.delim != ""
    ensures 1 <= t.n <= |rest|
  {
    var b := rest[0];
    if LineStart(st.buf) && AtWord(rest, "DELIMITER") then
      Turn(st.(delimAcc := "", mode := Delim), 9, [])
    else if b == '-' && |rest| > 1 && rest[1] == '-' then
      Turn(st.(comment := "--", mode := Line), 2, [])
    else if b == '#' then
      Turn(st.(comment := "#", mode := Line), 1, [])
    else if b == '/' && |rest| > 1 && rest[1] == '*' then
      Turn(st.(mode := Block), 2, [])
    else if IsQuote(b) then
      Turn(st.(buf := st.buf + [b], mode := Quote(b)), 1, [])
    else if At(rest, st.delim) then
      Turn(st.(buf := ""), |st.delim|, Flushed(st.buf))
    else
      Turn(st.(buf := st.buf + [b]), 1, [])
  }

  function StepQuote(st: State, rest: string): (t: Turn)
    requires st.mode.Quote? && rest != ""
    ensures 1 <= t.n <= |rest|
  {
    var c := rest[0];
    if c == '\\' && |rest| > 1 then
      Turn(st.(buf := st.buf + [c, rest[1]]), 2, [])
    else if c == st.mode.q then
      if |rest| > 1 && rest[1] == c then Turn(st.(buf := st.buf + [c, c]), 2, [])
      else Turn(st.(buf := st.buf + [c], mode := Normal), 1, [])
    else
      Turn(st.(buf := st.buf + [c]), 1, [])
  }

  function StepLine(st: State, rest: string): (t: Turn)
    requires st.mode.Line? && rest != ""
    ensures t.n <= |rest| && (t.n == 0 ==> t.st.mode.Normal?)
  {
    if rest[0] == '\n' then
      Turn(st.(comment := "", mode := Normal), 0, CommentItems(st.comment))
    else
      Turn(st.(comment := st.comment + [rest[0]]), 1, [])
  }

  function StepBlock(st: State, rest: string): (t: Turn)
    requires st.mode.Block? && rest != ""
    ensures 1 <= t.n <= |rest|
  {
    if rest[0] == '*' && |rest| > 1 && rest[1] == '/' then Turn(st.(mode := Normal), 2, [])
    else Turn(st, 1, [])
  }

  function StepDelim(st: State, rest: string): (t: Turn)
    requires st.mode.Delim? && rest != ""
    ensures 1 <= t.n <= |rest|
  {
    var c := rest[0];
    if c == '\n' || c == '\r' then
      Turn(st.(delim := NewDelim(st), delimAcc := "", mode := Normal), 1, [])
    else if st.delimAcc == "" && (c == ' ' || c == '\t') then
      Turn(st, 1, [])
    else
      Turn(st.(delimAcc := st.delimAcc + [c]), 1, [])
  }

  function Step(st: State, rest: string): (t: Turn)
    requires rest != "" && st.delim != ""
    ensures t.n <= |rest|
    ensures t.n == 0 ==> st.mode.Line? && t.st.mode.Normal?
    ensures t.st.delim != ""
  {
    match st.mode
    case Normal => StepNormal(st, rest)
    case Quote(_) => StepQuote(st, rest)
    case Line => StepLine(st, rest)
    case Block => StepBlock(st, rest)
    case Delim => StepDelim(st, rest)
  }

  // ------------------------------------------------------------------ the loop

  /** Where a scan stopped: the state, the unread tail, everything emitted. */
  datatype Scanned = Scanned(st: State, carry: string, items: seq<Item>) {
    function After(earlier: seq<Item>): Scanned {
      this.(items := earlier + items)
    }
  }

  /** Steps until at most `keep` bytes are left. */
  function Scan(st: State, rest: string, keep: nat): (r: Scanned)
    requires st.delim != ""
    ensures |r.carry| <= |rest|
    ensures |r.carry| <= keep
    ensures r.st.delim != ""
    decreases |rest|, if st.mode.Line? then 1 else 0
  {
    if |rest| <= keep then Scanned(st, rest, [])
    else
      var t := Step(st, rest);
      Scan(t.st, rest[t.n..], keep).After(t.items)
  }

  lemma AfterNothing(r: Scanned)
    ensures r.After([]) == r
  {
    assert [] + r.items == r.items;
  }

  lemma ScanTurn(st: State, rest: string, keep: nat, earlier: seq<Item>)
    requires st.delim != "" && |rest| > keep
    ensures var t := Step(st, rest);
            Scan(st, rest, keep).After(earlier) == Scan(t.st, rest[t.n..], keep).After(earlier + t.items)
  {
    var t := Step(st, rest);
    var tail := Scan(t.st, rest[t.n..], keep);
    assert earlier + (t.items + tail.items) == earlier + t.items + tail.items;
  }

  /** What the final chunk adds once every byte has been read. */
  function Finish(st: State): seq<Item> {
    (if st.mode.Line? then CommentItems(st.comment) else []) + Flushed(st.buf)
  }

  /** The reference: the items of an input that is read in one go. */
  function Whole(st: State, data: string): seq<Item>
    requires st.delim != ""
  {
    var r := Scan(st, data, 0);
    r.items + Finish(r.st)
  }

  /** The state a final chunk leaves behind. */
  function Settled(st: State): State {
    match st.mode
    case Line => st.(comment := "", mode := Normal, buf := "")
    case Delim => st.(delim := NewDelim(st), mode := Normal, buf := "")
    case _ => st.(buf := "")
  }

  // ---------------------------------------------------------------- the object

  class StreamSplitter {
    var delim: string
    var buf: string
    var comment: string
    var delimAcc: string
    var carry: string
    var mode: Mode

    predicate Valid()
      reads this
    {
      delim != ""
    }

    function Snapshot(): State
      reads this
    {
      State(delim, buf, comment, delimAcc, mode)
    }

    constructor ()
      ensures Valid() && Snapshot() == START && carry == ""
    {
      delim, buf, comment, delimAcc, carry, mode := ";", "", "", "", "", Normal;
    }

    method Flush() returns (items: seq<Item>)
      modifies `buf
      ensures Snapshot() == old(Snapshot()).(buf := "")
      ensures items == Flushed(old(buf))
    {
      var trimmed := Trim(buf);
      items := if trimmed != "" then [Stmt(trimmed)] else [];
      buf := "";
    }

    method FinishComment() returns (items: seq<Item>)
      modifies `comment
      ensures Snapshot() == old(Snapshot()).(comment := "")
      ensures items == CommentItems(old(comment))
    {
      var m := Classify(comment);
      items := if m.Some? then [Marker(m.value)] else [];
      comment := "";
    }

    method AdoptDelim()
      modifies `delim
      ensures Snapshot() == old(Snapshot()).(delim := NewDelim(old(Snapshot())))
    {
      var nd := Trim(delimAcc);
      if nd != "" {
        delim := nd;
      }
    }

    method TurnNormal(rest: string) returns (n: nat, items: seq<Item>)
      requires Valid() && mode.Normal? && rest != ""
      modifies this
      ensures Valid() && carry == old(carry)
      ensures Turn(Snapshot(), n, items) == StepNormal(old(Snapshot()), rest)
    {
      var b := rest[0];
      n, items := 1, [];
      if LineStart(buf) && AtWord(rest, "DELIMITER") {
        n, delimAcc, mode := 9, "", Delim;
      } else if b == '-' && |rest| > 1 && rest[1] == '-' {
        comment, n, mode := "--", 2, Line;
      } else if b == '#' {
        comment, mode := "#", Line;
      } else if b == '/' && |rest| > 1 && rest[1] == '*' {
        n, mode := 2, Block;
      } else if IsQuote(b) {
        buf, mode := buf + [b], Quote(b);
      } else if At(rest, delim) {
        items := Flush();
        n := |delim|;
      } else {
        buf := buf + [b];
      }
    }

    method TurnQuote(rest: string) returns (n: nat)
      requires Valid() && mode.Quote? && rest != ""
      modifies this
      ensures Valid() && carry == old(carry)
      ensures Turn(Snapshot(), n, []) == StepQuote(old(Snapshot()), rest)
    {
      var c := rest[0];
      n := 1;
      if c == '\\' && |rest| > 1 {
        buf, n := buf + [c, rest[1]], 2;
      } else if c == mode.q {
        if |rest| > 1 && rest[1] == c {
          buf, n := buf + [c, c], 2;
        } else {
          buf, mode := buf + [c], Normal;
        }
      } else {
        buf := buf + [c];
      }
    }

    method TurnOther(rest: string) returns (n: nat, items: seq<Item>)
      requires Valid() && (mode.Line? || mode.Block? || mode.Delim?) && rest != ""
      modifies this
      ensures Valid() && carry == old(carry)
      ensures Turn(Snapshot(), n, items) == Step(old(Snapshot()), rest)
    {
      var c := rest[0];
      n, items := 1, [];
      match mode
      case Line =>
        if c == '\n' {
          items := FinishComment();
          n, mode := 0, Normal;
        } else {
          comment := comment + [c];
        }
      case Block =>
        if c == '*' && |rest| > 1 && rest[1] == '/' {
          n, mode := 2, Normal;
        }
      case Delim =>
        if c == '\n' || c == '\r' {
          AdoptDelim();
          delimAcc, mode := "", Normal;
        } else if !(delimAcc == "" && (c == ' ' || c == '\t')) {
          delimAcc := delimAcc + [c];
        }
    }

    /** One turn of the scanner loop, whatever the mode. */
    method TurnAny(rest: string) returns (n: nat, items: seq<Item>)
      requires Valid() && rest != ""
      modifies this
      ensures Valid() && carry == old(carry)
      ensures Turn(Snapshot(), n, items) == Step(old(Snapshot()), rest)
    {
      items := [];
      match mode
      case Normal => n, items := TurnNormal(rest);
      case Quote(_) => n := TurnQuote(rest);
      case _ => n, items := TurnOther(rest);
    }

    /** The end of the final chunk: a pending comment or delimiter, then the statement. */
    method Settle() returns (items: seq<Item>)
      requires Valid()
      modifies this
      ensures Valid() && carry == old(carry)
      ensures Snapshot() == Settled(old(Snapshot())) && items == Finish(old(Snapshot()))
    {
      ghost var st := Snapshot();
      items := [];
      if mode.Line? {
        items := FinishComment();
        mode := Normal;
      } else if mode.Delim? {
        AdoptDelim();
        mode := Normal;
      }
      assert Snapshot().(buf := "") == Settled(st);
      var last := Flush();
      items := items + last;
    }

    /** The scanner loop: reads `data` until at most `keep` bytes are left. */
    method Read(data: string, keep: nat) returns (emitted: seq<Item>)
      requires Valid()
      modifies this
      ensures Valid()
      ensures Scanned(Snapshot(), carry, emitted) == Scan(old(Snapshot()), data, keep)
    {
      ghost var all := Scan(Snapshot(), data, keep);
      var rest := data;
      emitted := [];
      AfterNothing(all);
      while |rest| > keep
        invariant Valid()
        invariant Scan(Snapshot(), rest, keep).After(emitted) == all
        decreases |rest|, if mode.Line? then 1 else 0
      {
        ScanTurn(Snapshot(), rest, keep, emitted);
        var n, items := TurnAny(rest);
        emitted := emitted + items;
        rest := rest[n..];
      }
      carry := rest;
      assert emitted + [] == emitted;
    }

    /** Reads one chunk; the final one also flushes the statement in progress. */
    method Feed(chunk: string, final: bool) returns (emitted: seq<Item>)
      requires Valid()
      modifies this
      ensures Valid()
      ensures var r := Scan(old(Snapshot()), old(carry) + chunk, if final then 0 else SAFE_TAIL);
              if final then
                && carry == "" && Snapshot() == Settled(r.st)
                && emitted == Whole(old(Snapshot()), old(carry) + chunk)
              else
                Scanned(Snapshot(), carry, emitted) == r
    {
      emitted := Read(carry + chunk, if final then 0 else SAFE_TAIL);
      if final {
        var last := Settle();
        emitted := emitted + last;
      }
    }
  }
}
