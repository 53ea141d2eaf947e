/**
  How the statement splitter reads text that is laid out on purpose: comment
  lines, block comments and statements that end in `;`. `Quiet` is a small
  reference reading of a statement text (quotes closed, no comment and no `;`
  outside them); a script of such pieces comes apart into exactly those pieces.
*/
module Framing {
  import opened Text
  import opened Splitter
  import opened ChunkIndependence

  // ------------------------------------------------------------- statement texts

  /** `quote` is the quote we are inside of, if any. */
  predicate QuietFrom(quote: Option<char>, text: string)
    decreases |text|
  {
    if text == "" then quote.None?
    else
      var c := text[0];
      match quote
      case Some(q) =>
        if c == '\\' then |text| > 1 && QuietFrom(quote, text[2..])
        else if c == q then
          |text| > 1 && if text[1] == q then QuietFrom(quote, text[2..]) else QuietFrom(None, text[1..])
        else QuietFrom(quote, text[1..])
      case None =>
        if IsQuote(c) then QuietFrom(Some(c), text[1..])
        else
          && c != ';' && c != '#'
          && (c == '-' ==> |text| > 1 && text[1] != '-')
          && (c == '/' ==> |text| > 1 && text[1] != '*')
          && (c == '\n' && |text| > 1 ==> Upper(text[1]) != 'D')
          && QuietFrom(None, text[1..])
  }

  predicate Quiet(text: string) {
    QuietFrom(None, text)
  }

  lemma {:induction false} QuietAppend(quote: Option<char>, a: string, b: string)
    requires QuietFrom(quote, a) && Quiet(b)
    requires a != "" && b != "" && a[|a| - 1] == '\n' ==> Upper(b[0]) != 'D'
    ensures QuietFrom(quote, a + b)
    decreases |a|
  {
    if a == "" {
      assert a + b == b;
    } else {
      DropPrefix(a, b, 1);
      var c := a[0];
      match quote {
        case Some(q) =>
          if c == '\\' || (c == q && a[1] == q) {
            DropPrefix(a, b, 2);
            QuietAppend(quote, a[2..], b);
          } else {
            QuietAppend(if c == q then None else quote, a[1..], b);
          }
        case None =>
          QuietAppend(if IsQuote(c) then Some(c) else None, a[1..], b);
      }
    }
  }

  /** Characters that mean nothing to the scanner, whatever follows them. */
  predicate Plain(c: char) {
    !IsQuote(c) && c != ';' && c != '#' && c != '-' && c != '/' && c != '\n'
  }

  lemma {:induction false} PlainIsQuiet(text: string)
    requires forall i :: 0 <= i < |text| ==> Plain(text[i])
    ensures Quiet(text)
  {
    if text != "" {
      PlainIsQuiet(text[1..]);
    }
  }

  // -------------------------------------------------------------------- reading

  /** Between two pieces: nothing but whitespace is buffered. */
  function Between(pad: string): State {
    START.(buf := pad)
  }

  function Inside(buf: string, quote: Option<char>): State {
    State(";", buf, "", "", if quote.Some? then Quote(quote.value) else Normal)
  }

  /** A text that is quiet in front of a closing character, hence in front of the `;` that ends it. */
  predicate Complete(quote: Option<char>, text: string) {
    QuietFrom(quote, text + ")")
  }

  lemma QuietCompletes(text: string)
    requires Quiet(text)
    ensures Complete(None, text)
  {
    PlainIsQuiet(")");
    QuietAppend(None, text, ")");
  }

  /** How many bytes of a complete text one step takes, and the quote it leaves us in. */
  function Bite(quote: Option<char>, text: string): (nat, Option<char>)
    requires text != ""
  {
    var c := text[0];
    match quote
    case Some(q) =>
      if c == '\\' || (c == q && |text| > 1 && text[1] == q) then (2, quote)
      else if c == q then (1, None)
      else (1, quote)
    case None => (1, if IsQuote(c) then Some(c) else None)
  }

  lemma BiteRest(quote: Option<char>, text: string)
    requires text != "" && Complete(quote, text) && (quote.Some? ==> IsQuote(quote.value))
    ensures var (n, next) := Bite(quote, text);
            n <= |text| && Complete(next, text[n..]) && (next.Some? ==> IsQuote(next.value))
  {
    var all := text + ")";
    var (n, next) := Bite(quote, text);
    assert all[0] == text[0] && (|text| > 1 ==> all[1] == text[1]);
    assert |text| == 1 && quote.Some? && text[0] == '\\' ==> all[2..] == "" && !QuietFrom(quote, all[2..]);
    if n <= |text| {
      DropPrefix(text, ")", n);
    }
  }

  /** What may stand behind a complete text. */
  predicate Ends(rest: string) {
    rest != "" && (rest[0] == ';' || rest[0] == '\n')
  }

  lemma BiteIsStep(buf: string, quote: Option<char>, text: string, rest: string)
    requires text != "" && Complete(quote, text) && Ends(rest)
    requires Bite(quote, text).0 <= |text| && (quote.Some? ==> IsQuote(quote.value))
    requires quote.None? && LineStart(buf) ==> !AtWord(text + rest, "DELIMITER")
    ensures var (n, next) := Bite(quote, text);
            Step(Inside(buf, quote), text + rest) == Turn(Inside(buf + text[..n], next), n, [])
  {
    var all, closed := text + rest, text + ")";
    assert all[0] == text[0] == closed[0];
    assert if |text| > 1 then all[1] == text[1] == closed[1] else all[1] == rest[0] && closed[1] == ')';
    assert text[..1] == [text[0]] && (|text| > 1 ==> text[..2] == [text[0], text[1]]);
  }

  lemma BiteLineStart(buf: string, quote: Option<char>, text: string, rest: string)
    requires text != "" && Complete(quote, text) && (quote.Some? ==> IsQuote(quote.value))
    requires Bite(quote, text).0 <= |text|
    ensures var (n, next) := Bite(quote, text);
            next.None? && text[n..] != "" && LineStart(buf + text[..n]) ==> !AtWord(text[n..] + rest, "DELIMITER")
  {
    var (n, next) := Bite(quote, text);
    if next.None? && text[n..] != "" {
      assert n == 1 && (buf + text[..1])[|buf|] == text[0] && (text[1..] + rest)[0] == text[1];
      assert (text + ")")[0] == text[0] && (text + ")")[1] == text[1];
    }
  }

  lemma EmptyIsOutside(quote: Option<char>)
    requires Complete(quote, "") && (quote.Some? ==> IsQuote(quote.value))
    ensures quote.None?
  {
    assert "" + ")" == ")" && ")"[1..] == "";
  }

  /** A complete text goes into the buffer byte by byte. */
  lemma {:induction false} ReadsText(buf: string, quote: Option<char>, text: string, rest: string)
    requires Complete(quote, text) && (quote.Some? ==> IsQuote(quote.value)) && Ends(rest)
    requires quote.None? && text != "" && LineStart(buf) ==> !AtWord(text + rest, "DELIMITER")
    ensures Scan(Inside(buf, quote), text + rest, 0) == Scan(Inside(buf + text, None), rest, 0)
    ensures Whole(Inside(buf, quote), text + rest) == Whole(Inside(buf + text, None), rest)
    decreases |text|
  {
    hide Scan, Step, Complete, AtWord, LineStart;
    if text == "" {
      assert text + rest == rest && buf + text == buf;
      EmptyIsOutside(quote);
      return;
    }
    var (n, next) := Bite(quote, text);
    BiteRest(quote, text);
    BiteIsStep(buf, quote, text, rest);
    BiteLineStart(buf, quote, text, rest);
    DropPrefix(text, rest, n);
    QuietTurn(Inside(buf, quote), text + rest, 0, Inside(buf + text[..n], next), n);
    ReadsText(buf + text[..n], next, text[n..], rest);
    assert text == text[..n] + text[n..];
    Assoc(buf, text[..n], text[n..]);
  }

  lemma NoItems(out: seq<Item>)
    ensures [] + out == out
  {
  }

  /** Plain characters go into the buffer whatever follows them. */
  lemma {:induction false} PlainReads(buf: string, text: string, rest: string)
    requires forall i :: 0 <= i < |text| ==> Plain(text[i])
    requires text != "" && LineStart(buf) ==> Upper(text[0]) != 'D'
    ensures Whole(Inside(buf, None), text + rest) == Whole(Inside(buf + text, None), rest)
    decreases |text|
  {
    hide Whole;
    if text == "" {
      assert text + rest == rest && buf + text == buf;
    } else {
      var all := text + rest;
      assert all[0] == text[0] && all[1..] == text[1..] + rest;
      assert Upper("DELIMITER"[0]) == 'D';
      WholeTurn(Inside(buf, None), all);
      NoItems(Whole(Inside(buf + [text[0]], None), all[1..]));
      PlainReads(buf + [text[0]], text[1..], rest);
      assert buf + [text[0]] + text[1..] == buf + text;
    }
  }

  // --------------------------------------------------------------------- pieces

  function Stmts(texts: seq<string>): seq<Item> {
    if texts == [] then [] else [Stmt(texts[0])] + Stmts(texts[1..])
  }

  function StmtTexts(items: seq<Item>): seq<string> {
    if items == [] then []
    else (if items[0].Stmt? then [items[0].text] else []) + StmtTexts(items[1..])
  }

  lemma {:induction false} OnlyStmts(items: seq<Item>)
    requires forall i :: 0 <= i < |items| ==> items[i].Stmt?
    ensures items == Stmts(StmtTexts(items))
  {
    if items != [] {
      OnlyStmts(items[1..]);
      var texts := StmtTexts(items);
      assert texts[0] == items[0].text && texts[1..] == StmtTexts(items[1..]);
      assert items == [items[0]] + items[1..];
    }
  }

  lemma OneText(text: string)
    ensures StmtTexts([Stmt(text)]) == [text]
  {
    assert [Stmt(text)][1..] == [] && StmtTexts([]) == [];
    assert [text] + [] == [text];
  }

  /** Reading a text of any kind, and the `;` behind it, from between two statements. */
  function Reading(text: string): Scanned {
    Scan(Between(""), text + ";", 0)
  }

  /** The statements such a text holds. */
  function FreeTexts(text: string): seq<string> {
    StmtTexts(Reading(text).items)
  }

  /**
    One piece of a script, as the dump writer lays it out. A `Free` text comes from
    the source server: it may hold several statements, comments and directives.
  */
  datatype Piece =
    | LineComment(line: string)
    | BlockComment(body: string)
    | Sql(text: string, gap: string)
    | Free(text: string, gap: string)
    | Space(gap: string)

  function Print(p: Piece): string {
    match p
    case LineComment(line) => "--" + line + "\n"
    case BlockComment(body) => "/*" + body + "*/"
    case Sql(text, gap) => text + ";" + gap
    case Free(text, gap) => text + ";" + gap
    case Space(gap) => gap
  }

  function PrintAll(ps: seq<Piece>): string {
    if ps == [] then "" else Print(ps[0]) + PrintAll(ps[1..])
  }

  /** What the importer is meant to see of a piece. */
  function Meaning(p: Piece): seq<Item> {
    match p
    case LineComment(line) => CommentItems("--" + line)
    case Sql(text, _) => [Stmt(text)]
    case Free(text, _) => Stmts(FreeTexts(text))
    case _ => []
  }

  function MeaningAll(ps: seq<Piece>): seq<Item> {
    if ps == [] then [] else Meaning(ps[0]) + MeaningAll(ps[1..])
  }

  /** Not the start of a `DELIMITER` directive. */
  predicate NotDirective(text: string) {
    |text| > 1 && !(Upper(text[0]) == 'D' && Upper(text[1]) == 'E')
  }

  predicate WellLaid(p: Piece) {
    match p
    case LineComment(line) => '\n' !in line
    case BlockComment(body) => Unclosed(body)
    case Sql(text, gap) => Complete(None, text) && Tight(text) && NotDirective(text) && Blank(gap)
    case Free(text, gap) => Settles(text) && Blank(gap)
    case Space(gap) => Blank(gap)
  }

  /** Its last `;` ends a statement, outside quotes and comments and under `;`, and none of its comments is a marker. */
  predicate Settles(text: string) {
    && Reading(text).st == Between("")
    && forall i :: 0 <= i < |Reading(text).items| ==> Reading(text).items[i].Stmt?
  }

  /** Pieces whose gaps end their line. */
  predicate Broken(p: Piece) {
    match p
    case Sql(_, gap) => LineStart(gap)
    case Free(_, gap) => LineStart(gap)
    case Space(gap) => LineStart(gap)
    case _ => true
  }

  lemma {:induction false} ReadsLine(buf: string, comment: string, line: string, rest: string)
    requires '\n' !in line
    ensures Whole(State(";", buf, comment, "", Line), line + "\n" + rest)
         == CommentItems(comment + line) + Whole(State(";", buf, "", "", Normal), "\n" + rest)
    decreases |line|
  {
    hide Whole, CommentItems;
    var all := line + "\n" + rest;
    WholeTurn(State(";", buf, comment, "", Line), all);
    if line == "" {
      assert all == "\n" + rest && comment + line == comment && all[0..] == all;
    } else {
      assert all[0] == line[0] && all[1..] == line[1..] + "\n" + rest;
      ReadsLine(buf, comment + [line[0]], line[1..], rest);
      assert comment + [line[0]] + line[1..] == comment + line;
      NoItems(CommentItems(comment + line) + Whole(State(";", buf, "", "", Normal), "\n" + rest));
    }
  }

  predicate Unclosed(body: string) {
    forall i :: 0 <= i < |body| - 1 ==> !(body[i] == '*' && body[i + 1] == '/')
  }

  lemma {:induction false} ReadsBlock(buf: string, body: string, rest: string)
    requires Unclosed(body)
    ensures Scan(State(";", buf, "", "", Block), body + "*/" + rest, 0)
         == Scan(State(";", buf, "", "", Normal), rest, 0)
    decreases |body|
  {
    hide Scan;
    var st, all := State(";", buf, "", "", Block), body + "*/" + rest;
    if body == "" {
      assert all == "*/" + rest && all[2..] == rest;
      QuietTurn(st, all, 0, st.(mode := Normal), 2);
    } else {
      assert all[0] == body[0] && all[1] == if |body| > 1 then body[1] else '*';
      assert all[1..] == body[1..] + "*/" + rest;
      QuietTurn(st, all, 0, st, 1);
      ReadsBlock(buf, body[1..], rest);
    }
  }

  lemma BlankStep(pad: string, all: string)
    requires all != "" && IsSpace(all[0])
    ensures Step(Between(pad), all) == Turn(Between(pad + [all[0]]), 1, [])
  {
    assert !AtWord(all, "DELIMITER");
  }

  lemma {:induction false} ReadsBlank(pad: string, gap: string, rest: string)
    requires Blank(pad) && Blank(gap)
    ensures Whole(Between(pad), gap + rest) == Whole(Between(pad + gap), rest)
    decreases |gap|
  {
    hide Whole, Step;
    if gap == "" {
      assert gap + rest == rest && pad + gap == pad;
    } else {
      var all := gap + rest;
      assert all[0] == gap[0] && all[1..] == gap[1..] + rest;
      WholeTurn(Between(pad), all);
      BlankStep(pad, all);
      ReadsBlank(pad + [gap[0]], gap[1..], rest);
      assert pad + [gap[0]] + gap[1..] == pad + gap;
      NoItems(Whole(Between(pad + gap), rest));
    }
  }

  lemma EndsStatement(pad: string, text: string, rest: string)
    requires Blank(pad) && Tight(text)
    ensures Whole(Inside(pad + text, None), ";" + rest) == [Stmt(text)] + Whole(Between(""), rest)
  {
    hide Whole, Trim;
    var st, all := Inside(pad + text, None), ";" + rest;
    WholeTurn(st, all);
    assert all[1..] == rest && all[0] == ';' && all[..1] == ";";
    assert !AtWord(all, "DELIMITER");
    TrimPadded(pad, text, "");
    assert pad + text + "" == pad + text;
  }

  lemma ReadsSql(pad: string, text: string, rest: string)
    requires Blank(pad) && Complete(None, text) && Tight(text) && NotDirective(text)
    ensures Whole(Between(pad), text + ";" + rest) == [Stmt(text)] + Whole(Between(""), rest)
  {
    hide Whole, Complete;
    Assoc(text, ";", rest);
    assert (text + (";" + rest))[0] == text[0] && (text + (";" + rest))[1] == text[1];
    ReadsText(pad, None, text, ";" + rest);
    EndsStatement(pad, text, rest);
  }

  lemma ReadsDashes(pad: string, line: string, rest: string)
    requires Blank(pad) && '\n' !in line
    ensures Whole(Between(pad), "--" + line + "\n" + rest)
         == CommentItems("--" + line) + Whole(Between(pad + "\n"), rest)
  {
    hide Whole, CommentItems;
    var tail := line + "\n" + rest;
    assert "--" + line + "\n" + rest == "--" + tail;
    assert ("--" + tail)[0] == '-' && ("--" + tail)[1] == '-' && ("--" + tail)[2..] == tail;
    WholeTurn(Between(pad), "--" + tail);
    NoItems(Whole(State(";", pad, "--", "", Line), tail));
    ReadsLine(pad, "--", line, rest);
    ReadsBlank(pad, "\n", rest);
  }

  lemma ReadsStars(buf: string, body: string, rest: string)
    requires Unclosed(body)
    ensures Scan(Between(buf), "/*" + body + "*/" + rest, 0) == Scan(Between(buf), rest, 0)
  {
    hide Scan;
    var tail := body + "*/" + rest;
    assert "/*" + body + "*/" + rest == "/*" + tail;
    assert ("/*" + tail)[0] == '/' && ("/*" + tail)[1] == '*' && ("/*" + tail)[2..] == tail;
    assert Upper('/') != Upper("DELIMITER"[0]);
    QuietTurn(Between(buf), "/*" + tail, 0, State(";", buf, "", "", Block), 2);
    ReadsBlock(buf, body, rest);
  }

  // ----------------------------------------------------------------- free texts

  /** What holds of every state the splitter gets into: delimiters have no line break. */
  predicate Ordinary(st: State) {
    && st.delim != "" && '\n' !in st.delim && '\r' !in st.delim
    && '\n' !in st.delimAcc && '\r' !in st.delimAcc
    && (st.mode.Quote? ==> IsQuote(st.mode.q))
  }

  lemma StepOrdinary(st: State, rest: string)
    requires Ordinary(st) && rest != ""
    ensures Ordinary(Step(st, rest).st)
    ensures Step(st, rest).st.delim != st.delim ==> rest[0] == '\n' || rest[0] == '\r'
  {
    if st.mode.Delim? {
      var left, right := TrimSplits(st.delimAcc);
      var t := Trim(st.delimAcc);
      assert forall c :: c in t ==> c in left + t + right;
    }
  }

  /** Where no line breaks, the delimiter stays. */
  lemma {:induction false} DelimStays(st: State, rest: string)
    requires Ordinary(st) && '\n' !in rest && '\r' !in rest
    ensures Scan(st, rest, 0).st.delim == st.delim
    decreases |rest|, if st.mode.Line? then 1 else 0
  {
    if rest != "" {
      hide Step;
      var t := Step(st, rest);
      StepOrdinary(st, rest);
      DelimStays(t.st, rest[t.n..]);
    }
  }

  /** A word or a delimiter that the text behind `a` would complete does not begin in `a`. */
  lemma LooksNoFurther(st: State, a: string, b: string)
    requires Ordinary(st) && a != "" && a[|a| - 1] == ';' && Scan(st, a, 0).st.delim == ";"
    ensures AtWord(a + b, "DELIMITER") <==> AtWord(a, "DELIMITER")
    ensures At(a + b, st.delim) <==> At(a, st.delim)
  {
    var w := "DELIMITER";
    assert Upper(';') == ';' && forall k :: 0 <= k < |w| ==> Upper(w[k]) != ';';
    assert forall k :: 0 <= k < |a| ==> (a + b)[k] == a[k];
    if |a| <= |w| && |w| <= |a + b| {
      assert Upper((a + b)[|a| - 1]) != Upper(w[|a| - 1]);
    }
    if At(a + b, st.delim) && |a| < |st.delim| {
      assert forall k :: 0 <= k < |a| ==> a[k] == (a + b)[k] == st.delim[k];
      DelimStays(st, a);
      assert false;
    }
  }

  lemma SameTurn(st: State, a: string, b: string)
    requires Ordinary(st) && a != "" && a[|a| - 1] == ';' && Scan(st, a, 0).st.delim == ";"
    ensures Step(st, a + b) == Step(st, a)
  {
    LooksNoFurther(st, a, b);
    hide Scan, AtWord, At;
    assert forall k :: 0 <= k < |a| ==> (a + b)[k] == a[k];
  }

  /** A text that ends in `;` and ends up under `;` is read alike whatever follows it. */
  lemma {:induction false} ReadsOn(st: State, a: string, b: string)
    requires Ordinary(st) && (a == "" || a[|a| - 1] == ';') && Scan(st, a, 0).st.delim == ";"
    ensures Scan(st, a + b, 0) == Scan(Scan(st, a, 0).st, b, 0).After(Scan(st, a, 0).items)
    decreases |a|, if st.mode.Line? then 1 else 0
  {
    if a == "" {
      assert a + b == b;
      AfterNothing(Scan(st, b, 0));
    } else {
      var t := Step(st, a);
      var r := Scan(t.st, a[t.n..], 0);
      SameTurn(st, a, b);
      StepOrdinary(st, a);
      hide Step, Ordinary;
      DropPrefix(a, b, t.n);
      ReadsOn(t.st, a[t.n..], b);
      Assoc(t.items, r.items, Scan(r.st, b, 0).items);
    }
  }

  /** The same state with whitespace in front of the buffer. */
  function Padded(pad: string, st: State): State {
    st.(buf := pad + st.buf)
  }

  lemma PaddedQuote(pad: string, st: State, rest: string)
    requires st.mode.Quote? && rest != ""
    ensures var t := StepQuote(st, rest);
            StepQuote(Padded(pad, st), rest) == Turn(Padded(pad, t.st), t.n, t.items)
  {
    Assoc(pad, st.buf, [rest[0]]);
    if |rest| > 1 {
      Assoc(pad, st.buf, [rest[0], rest[1]]);
    }
  }

  lemma PaddedNormal(pad: string, st: State, rest: string)
    requires st.mode.Normal? && st.delim != "" && rest != ""
    requires Trim(pad + st.buf) == Trim(st.buf) && LineStart(pad + st.buf) == LineStart(st.buf)
    ensures var t, p := StepNormal(st, rest), StepNormal(Padded(pad, st), rest);
            p.n == t.n && p.items == t.items && (p.st == t.st || p.st == Padded(pad, t.st))
  {
    hide Trim, AtWord, At, LineStart;
    Assoc(pad, st.buf, [rest[0]]);
  }

  lemma PaddedOther(pad: string, st: State, rest: string)
    requires (st.mode.Line? || st.mode.Block? || st.mode.Delim?) && st.delim != "" && rest != ""
    ensures var t := Step(st, rest);
            Step(Padded(pad, st), rest) == Turn(Padded(pad, t.st), t.n, t.items)
  {
    hide Trim, CommentItems;
  }

  lemma PaddedTurn(pad: string, st: State, rest: string)
    requires Blank(pad) && LineStart(pad) && st.delim != "" && rest != ""
    ensures var t, p := Step(st, rest), Step(Padded(pad, st), rest);
            p.n == t.n && p.items == t.items && (p.st == t.st || p.st == Padded(pad, t.st))
  {
    TrimPads(pad, st.buf);
    assert LineStart(pad + st.buf) == LineStart(st.buf) by {
      assert pad + "" == pad;
    }
    hide Trim, LineStart, Blank, StepNormal, StepQuote, StepLine, StepBlock, StepDelim;
    match st.mode
    case Normal => PaddedNormal(pad, st, rest);
    case Quote(_) => PaddedQuote(pad, st, rest);
    case Line => PaddedOther(pad, st, rest);
    case Block => PaddedOther(pad, st, rest);
    case Delim => PaddedOther(pad, st, rest);
  }

  /** Whitespace that ends its line, in front of a text, changes nothing of what is read. */
  lemma {:induction false} PadsAway(pad: string, st: State, rest: string)
    requires Blank(pad) && LineStart(pad) && st.delim != ""
    ensures var r, p := Scan(st, rest, 0), Scan(Padded(pad, st), rest, 0);
            p.items == r.items && (p.st == r.st || p.st == Padded(pad, r.st))
    decreases |rest|, if st.mode.Line? then 1 else 0
  {
    if rest != "" {
      var t := Step(st, rest);
      PaddedTurn(pad, st, rest);
      hide Step;
      PadsAway(pad, t.st, rest[t.n..]);
    }
  }

  /** A free text comes apart into its own statements, and reading goes on behind it. */
  lemma ReadsFree(pad: string, text: string, rest: string) returns (next: string)
    requires Blank(pad) && LineStart(pad) && Settles(text)
    ensures next == "" || next == pad
    ensures Whole(Between(pad), text + ";" + rest) == Stmts(FreeTexts(text)) + Whole(Between(next), rest)
  {
    var p := Scan(Between(pad), text + ";", 0);
    assert Padded(pad, Between("")) == Between(pad) by { assert pad + "" == pad; }
    PadsAway(pad, Between(""), text + ";");
    hide Scan;
    next := p.st.buf;
    assert p.st == Between(next);
    OnlyStmts(Reading(text).items);
    ReadsOn(Between(pad), text + ";", rest);
    var r := Scan(Between(next), rest, 0);
    Assoc(p.items, r.items, Finish(r.st));
  }

  lemma EndingTurn(text: string, gap: string)
    requires Tight(text) && Blank(gap)
    ensures Scan(Between("" + text + gap), ";", 0) == Scanned(Between(""), "", [Stmt(text)])
  {
    var st := Between("" + text + gap);
    assert Upper(';') != Upper("DELIMITER"[0]) && ";"[1..] == "";
    TrimPadded("", text, gap);
    assert Step(st, ";") == Turn(Between(""), 1, [Stmt(text)]);
  }

  // ------------------------------------------------- when a text is one whole statement

  /**
    The text is one statement with nothing around it: outside quotes no `;`, no comment
    and no directive, which stands at the start of a line, begins; and the quotes close.
  */
  predicate Bare(quote: Option<char>, lineStart: bool, text: string)
    decreases |text|
  {
    if text == "" then quote.None?
    else
      var c := text[0];
      match quote
      case Some(q) =>
        if c == '\\' then |text| > 1 && Bare(quote, false, text[2..])
        else if c == q && |text| > 1 && text[1] == q then Bare(quote, false, text[2..])
        else Bare(if c == q then None else quote, false, text[1..])
      case None => !Begins(lineStart, text) && Bare(if IsQuote(c) then Some(c) else None, c == '\n', text[1..])
  }

  /** Something that ends the statement, or is not part of it, begins here. */
  predicate Begins(lineStart: bool, text: string)
    requires text != ""
  {
    || text[0] == ';' || text[0] == '#'
    || (|text| > 1 && text[0] == '-' && text[1] == '-')
    || (|text| > 1 && text[0] == '/' && text[1] == '*')
    || (lineStart && AtWord(text, "DELIMITER"))
  }

  /** Where nothing begins, the splitter takes the next bytes into the buffer. */
  lemma BareStep(buf: string, quote: Option<char>, text: string)
    requires text != "" && Bite(quote, text).0 <= |text| && (quote.Some? ==> IsQuote(quote.value))
    requires quote.None? ==> !Begins(LineStart(buf), text)
    ensures var (n, next) := Bite(quote, text);
            Step(Inside(buf, quote), text + ";") == Turn(Inside(buf + text[..n], next), n, [])
  {
    var all := text + ";";
    assert all[0] == text[0] && all[1] == if |text| > 1 then text[1] else ';';
    assert text[..1] == [text[0]] && (|text| > 1 ==> text[..2] == [text[0], text[1]]);
    WordInText(text);
  }

  lemma WordInText(text: string)
    ensures AtWord(text + ";", "DELIMITER") <==> AtWord(text, "DELIMITER")
  {
    var w := "DELIMITER";
    assert forall k :: 0 <= k < |text| ==> (text + ";")[k] == text[k];
    if |text| == 8 {
      assert Upper((text + ";")[8]) != Upper(w[8]);
    }
  }

  /** What is left of a bare text is bare. */
  lemma BareTurn(buf: string, quote: Option<char>, text: string)
    requires text != "" && (quote.Some? ==> IsQuote(quote.value))
    ensures var (n, next) := Bite(quote, text);
            Bare(quote, LineStart(buf), text)
            <==> n <= |text| && (quote.None? ==> !Begins(LineStart(buf), text))
                 && Bare(next, LineStart(buf + text[..n]), text[n..])
  {
    if quote.Some? {
      QuotedTurn(buf, quote.value, text);
    } else {
      PlainTurn(buf, text);
    }
  }

  lemma PlainTurn(buf: string, text: string)
    requires text != ""
    ensures var (n, next) := Bite(None, text);
            && n == 1
            && (Bare(None, LineStart(buf), text)
                <==> !Begins(LineStart(buf), text) && Bare(next, LineStart(buf + text[..1]), text[1..]))
  {
    assert (buf + text[..1])[|buf|] == text[0];
    assert LineStart(buf + text[..1]) == (text[0] == '\n');
    hide Begins, LineStart;
  }

  lemma QuotedTurn(buf: string, q: char, text: string)
    requires text != "" && IsQuote(q)
    ensures var (n, next) := Bite(Some(q), text);
            Bare(Some(q), LineStart(buf), text) <==> n <= |text| && Bare(next, LineStart(buf + text[..n]), text[n..])
  {
    var (n, next) := Bite(Some(q), text);
    if next.None? {
      assert n == 1 && (buf + text[..1])[|buf|] == q && !LineStart(buf + text[..1]);
    } else if n <= |text| {
      InQuote(q, LineStart(buf + text[..n]), text[n..]);
    }
    hide LineStart;
  }

  lemma InQuote(q: char, lineStart: bool, text: string)
    ensures Bare(Some(q), lineStart, text) == Bare(Some(q), false, text)
  {
  }

  /** One bite of a text: the same scan goes on behind it. */
  lemma BareOn(buf: string, quote: Option<char>, text: string)
    requires text != "" && Bite(quote, text).0 <= |text| && (quote.Some? ==> IsQuote(quote.value))
    requires quote.None? ==> !Begins(LineStart(buf), text)
    ensures var (n, next) := Bite(quote, text);
            Scan(Inside(buf, quote), text + ";", 0) == Scan(Inside(buf + text[..n], next), text[n..] + ";", 0)
  {
    var (n, next) := Bite(quote, text);
    BareStep(buf, quote, text);
    hide Scan, Step, Begins, LineStart, Bite;
    DropPrefix(text, ";", n);
    QuietTurn(Inside(buf, quote), text + ";", 0, Inside(buf + text[..n], next), n);
  }

  /** A bare text goes into the buffer byte by byte. */
  lemma {:induction false} BareReads(buf: string, quote: Option<char>, text: string)
    requires Bare(quote, LineStart(buf), text) && (quote.Some? ==> IsQuote(quote.value))
    ensures Scan(Inside(buf, quote), text + ";", 0) == Scan(Inside(buf + text, None), ";", 0)
    decreases |text|
  {
    if text == "" {
      assert text + ";" == ";" && buf + text == buf;
    } else {
      var (n, next) := Bite(quote, text);
      BareTurn(buf, quote, text);
      BareOn(buf, quote, text);
      assert 1 <= n <= |text| && (next.Some? ==> IsQuote(next.value));
      hide *;
      BareReads(buf + text[..n], next, text[n..]);
      assert text == text[..n] + text[n..];
      Assoc(buf, text[..n], text[n..]);
    }
  }

  /** The bytes of the statements among some items. */
  function Emitted(items: seq<Item>): nat {
    if items == [] then 0 else (if items[0].Stmt? then |items[0].text| else 0) + Emitted(items[1..])
  }

  lemma {:induction false} EmittedAppend(a: seq<Item>, b: seq<Item>)
    ensures Emitted(a + b) == Emitted(a) + Emitted(b)
  {
    if a == [] {
      assert a + b == b;
    } else {
      DropPrefix(a, b, 1);
      EmittedAppend(a[1..], b);
    }
  }

  lemma TrimShorter(buf: string)
    ensures Emitted(Flushed(buf)) <= |buf|
  {
    var left, right := TrimSplits(buf);
    assert Flushed(buf) != [] ==> Flushed(buf)[1..] == [];
  }

  lemma CommentsWeighNothing(comment: string)
    ensures Emitted(CommentItems(comment)) == 0
  {
    assert CommentItems(comment) != [] ==> CommentItems(comment)[1..] == [];
  }

  /** A step loses a byte, or takes its bytes into the buffer, or only ends a comment line. */
  lemma StepWeighs(st: State, a: string)
    requires st.delim != "" && a != ""
    ensures var t := Step(st, a);
            || Emitted(t.items) + |t.st.buf| < |st.buf| + t.n
            || (Emitted(t.items) == 0 && |t.st.buf| == |st.buf| + t.n && t.n > 0)
            || (Emitted(t.items) == 0 && t.st.buf == st.buf && t.n == 0)
  {
    hide AtWord, At, LineStart, CommentItems, Flushed;
    TrimShorter(st.buf);
    CommentsWeighNothing(st.comment);
    assert Emitted([]) == 0;
  }

  /** Statements and buffer never exceed what was there and what was read. */
  lemma {:induction false} ScanWeighs(st: State, a: string)
    requires st.delim != ""
    ensures var r := Scan(st, a, 0); Emitted(r.items) + |r.st.buf| <= |st.buf| + |a|
    decreases |a|, if st.mode.Line? then 1 else 0
  {
    if a != "" {
      var t := Step(st, a);
      StepWeighs(st, a);
      hide Step;
      ScanWeighs(t.st, a[t.n..]);
      EmittedAppend(t.items, Scan(t.st, a[t.n..], 0).items);
    } else {
      assert Emitted([]) == 0;
    }
  }

  /** And when the buffer ends up empty, a byte was lost. */
  lemma {:induction false} ScanLoses(st: State, a: string)
    requires st.delim != "" && a != "" && Scan(st, a, 0).st.buf == ""
    ensures Emitted(Scan(st, a, 0).items) < |st.buf| + |a|
    decreases |a|, if st.mode.Line? then 1 else 0
  {
    var t := Step(st, a);
    var rest := a[t.n..];
    StepWeighs(st, a);
    EmittedAppend(t.items, Scan(t.st, rest, 0).items);
    hide Step;
    ScanWeighs(t.st, rest);
    if rest != "" {
      ScanLoses(t.st, rest);
    }
  }

  /** What begins outside quotes takes a byte that no statement gets. */
  lemma BeginsLoses(buf: string, text: string)
    requires text != "" && Begins(LineStart(buf), text)
    ensures var t := Step(Inside(buf, None), text + ";");
            t.n <= |text| && Emitted(t.items) + |t.st.buf| < |buf| + t.n
  {
    var all := text + ";";
    assert all[0] == text[0] && (|text| > 1 ==> all[1] == text[1]);
    WordInText(text);
    TrimShorter(buf);
    assert Emitted([]) == 0;
    hide AtWord, LineStart, Flushed;
    assert AtWord(text, "DELIMITER") ==> |text| >= 9 by { WordLength(text); }
  }

  lemma WordLength(text: string)
    ensures AtWord(text, "DELIMITER") ==> |text| >= 9
  {
  }

  lemma LastByte(text: string, n: nat)
    requires n <= |text|
    ensures (text + ";")[n..] != "" && |(text + ";")[n..]| == |text| + 1 - n
  {
  }

  /** A text that is not bare, but settles, holds less than itself. */
  lemma {:induction false} NotBareLoses(buf: string, quote: Option<char>, text: string)
    requires !Bare(quote, LineStart(buf), text) && (quote.Some? ==> IsQuote(quote.value))
    requires Scan(Inside(buf, quote), text + ";", 0).st == Between("")
    ensures Emitted(Scan(Inside(buf, quote), text + ";", 0).items) < |buf| + |text|
    decreases |text|
  {
    var st, all := Inside(buf, quote), text + ";";
    OpenEnds(buf, quote, text);
    if text == "" || Bite(quote, text).0 > |text| {
      return;
    }
    if quote.None? && Begins(LineStart(buf), text) {
      var t := Step(st, all);
      BeginsLoses(buf, text);
      LastByte(text, t.n);
      hide Step, Begins, LineStart;
      ScanLoses(t.st, all[t.n..]);
      EmittedAppend(t.items, Scan(t.st, all[t.n..], 0).items);
    } else {
      var (n, next) := Bite(quote, text);
      BareTurn(buf, quote, text);
      BareOn(buf, quote, text);
      assert 1 <= n <= |text| && (next.Some? ==> IsQuote(next.value));
      hide *;
      NotBareLoses(buf + text[..n], next, text[n..]);
    }
  }

  /** A quote that is open in front of the last byte, or takes it, stays open. */
  lemma OpenEnds(buf: string, quote: Option<char>, text: string)
    requires quote.Some? ==> IsQuote(quote.value)
    ensures quote.Some? && (text == "" || Bite(quote, text).0 > |text|) ==>
              Scan(Inside(buf, quote), text + ";", 0).st.mode.Quote?
    ensures quote.None? && text != "" ==> Bite(quote, text).0 <= |text|
  {
    if quote.Some? && (text == "" || Bite(quote, text).0 > |text|) {
      var st, all := Inside(buf, quote), text + ";";
      var t := Step(st, all);
      assert text != "" ==> all[0] == '\\';
      assert t.st.mode.Quote? && all[t.n..] == "";
      assert Scan(t.st, "", 0).st == t.st;
    }
  }

  lemma {:induction false} EmittedTexts(items: seq<Item>, text: string)
    requires StmtTexts(items) == [text]
    ensures Emitted(items) == |text|
  {
    if items[0].Stmt? {
      assert StmtTexts(items) == [items[0].text] + StmtTexts(items[1..]);
      assert StmtTexts(items)[0] == items[0].text && StmtTexts(items)[1..] == StmtTexts(items[1..]);
      NoTexts(items[1..]);
    } else {
      assert StmtTexts(items) == StmtTexts(items[1..]);
      EmittedTexts(items[1..], text);
    }
  }

  lemma {:induction false} NoTexts(items: seq<Item>)
    requires StmtTexts(items) == []
    ensures Emitted(items) == 0
  {
    if items != [] {
      NoTexts(items[1..]);
    }
  }

  /**
    The importer executes a text unchanged and as one statement exactly when, outside
    quotes, no `;`, `#`, `--` or block comment begins in it, and no directive at the
    start of a line. So every comment in a CREATE, a versioned one included, is lost.
  */
  lemma WholeIff(text: string)
    requires Tight(text)
    ensures Settles(text) && FreeTexts(text) == [text] <==> Bare(None, true, text)
  {
    assert LineStart("") && Between("") == Inside("", None);
    if Bare(None, true, text) {
      BareReads("", None, text);
      EndingTurn(text, "");
      assert "" + text + "" == "" + text;
      hide Scan, Bare;
      assert Reading(text) == Scanned(Between(""), "", [Stmt(text)]);
      OneText(text);
    } else if Settles(text) && FreeTexts(text) == [text] {
      NotBareLoses("", None, text);
      EmittedTexts(Reading(text).items, text);
    }
  }

  /** A comment behind the statement, a versioned one included, is dropped. */
  lemma CommentDropped(text: string, body: string)
    requires WellLaid(Sql(text, "")) && Unclosed(body)
    ensures Settles(text + "\n/*" + body + "*/") && FreeTexts(text + "\n/*" + body + "*/") == [text]
  {
    hide Complete, Scan, Whole;
    var all := text + "\n/*" + body + "*/";
    var tail := "/*" + body + "*/" + ";";
    assert all + ";" == text + ("\n" + tail);
    assert (all + ";")[0] == text[0] && (all + ";")[1] == text[1];
    ReadsText("", None, text, "\n" + tail);
    assert ("\n" + tail)[0] == '\n' && ("\n" + tail)[1..] == tail && Upper('\n') != Upper("DELIMITER"[0]);
    QuietTurn(Between("" + text), "\n" + tail, 0, Between("" + text + "\n"), 1);
    ReadsStars("" + text + "\n", body, ";");
    EndingTurn(text, "\n");
    assert Reading(all) == Scanned(Between(""), "", [Stmt(text)]);
    OneText(text);
  }

  /** A text that ends in `;` and ends up under `;`, outside quotes and comments, leaves nothing in the buffer. */
  lemma {:induction false} EndsFlushed(st: State, a: string)
    requires Ordinary(st) && a != "" && a[|a| - 1] == ';'
    requires var r := Scan(st, a, 0).st; r.delim == ";" && r.mode.Normal?
    ensures Scan(st, a, 0).st.buf == ""
    decreases |a|, if st.mode.Line? then 1 else 0
  {
    var t := Step(st, a);
    StepOrdinary(st, a);
    if t.n < |a| {
      hide Step, Ordinary;
      EndsFlushed(t.st, a[t.n..]);
    } else {
      assert Scan(t.st, "", 0).st == t.st && a[t.n..] == "";
    }
  }

  /** Free texts one after the other hold what each of them holds. */
  lemma FreeJoin(a: string, b: string)
    requires Settles(a) && Settles(b)
    ensures Settles(a + ";\n" + b) && FreeTexts(a + ";\n" + b) == FreeTexts(a) + FreeTexts(b)
  {
    hide Scan;
    var tail := b + ";";
    var p := Scan(Between("\n"), tail, 0);
    assert a + ";\n" + b + ";" == (a + ";") + ("\n" + tail);
    ReadsOn(Between(""), a + ";", "\n" + tail);
    assert ("\n" + tail)[0] == '\n' && ("\n" + tail)[1..] == tail && Upper('\n') != Upper("DELIMITER"[0]);
    QuietTurn(Between(""), "\n" + tail, 0, Between("\n"), 1);
    assert Padded("\n", Between("")) == Between("\n") by { assert "\n" + "" == "\n"; }
    PadsAway("\n", Between(""), tail);
    EndsFlushed(Between("\n"), tail);
    assert Reading(a + ";\n" + b) == p.After(Reading(a).items);
    TextsJoin(Reading(a).items, Reading(b).items);
  }

  lemma {:induction false} TextsJoin(a: seq<Item>, b: seq<Item>)
    ensures StmtTexts(a + b) == StmtTexts(a) + StmtTexts(b)
  {
    if a == [] {
      assert a + b == b;
    } else {
      DropPrefix(a, b, 1);
      TextsJoin(a[1..], b);
    }
  }

  /** The splitter reads one piece as its meaning and is between pieces again. */
  lemma ReadsPiece(pad: string, p: Piece, rest: string) returns (next: string)
    requires Blank(pad) && WellLaid(p) && (p.Free? ==> LineStart(pad))
    ensures Blank(next) && (LineStart(pad) && Broken(p) ==> LineStart(next))
    ensures Whole(Between(pad), Print(p) + rest) == Meaning(p) + Whole(Between(next), rest)
  {
    hide Whole, CommentItems, Complete, Settles, FreeTexts, Stmts;
    match p
    case LineComment(line) =>
      next := pad + "\n";
      ReadsDashes(pad, line, rest);
    case BlockComment(body) =>
      next := pad;
      ReadsStars(pad, body, rest);
      SameWhole(Between(pad), Print(p) + rest, Between(pad), rest);
      NoItems(Whole(Between(next), rest));
    case Sql(text, gap) =>
      next := "" + gap;
      assert Print(p) + rest == text + ";" + (gap + rest);
      ReadsSql(pad, text, gap + rest);
      ReadsBlank("", gap, rest);
    case Free(text, gap) =>
      var pad1 := ReadsFree(pad, text, gap + rest);
      next := pad1 + gap;
      assert Print(p) + rest == text + ";" + (gap + rest);
      ReadsBlank(pad1, gap, rest);
    case Space(gap) =>
      next := pad + gap;
      ReadsBlank(pad, gap, rest);
      NoItems(Whole(Between(next), rest));
  }

  /** Free texts stand at the start of a line. */
  predicate Lined(pad: string, ps: seq<Piece>) {
    (LineStart(pad) && forall p :: p in ps ==> Broken(p)) || forall p :: p in ps ==> !p.Free?
  }

  /** A script of well-laid pieces comes apart into exactly the meanings of its pieces, in order. */
  lemma {:induction false} ReadsScript(pad: string, ps: seq<Piece>)
    requires Blank(pad) && Lined(pad, ps) && forall k :: 0 <= k < |ps| ==> WellLaid(ps[k])
    ensures Whole(Between(pad), PrintAll(ps)) == MeaningAll(ps)
    decreases |ps|
  {
    if ps == [] {
      TrimPadded(pad, "", "");
      assert pad + "" + "" == pad;
      assert Whole(Between(pad), "") == [];
    } else {
      assert ps[0] in ps && forall p :: p in ps[1..] ==> p in ps;
      var next := ReadsPiece(pad, ps[0], PrintAll(ps[1..]));
      ReadsScript(next, ps[1..]);
    }
  }
}
