/**
  The literal printer and the INSERT writer of the dump
  (`sql_literal_opts_dialect`, `write_batch` in src-tauri/src/sql_dump.rs), against
  the importer's splitter and against MySQL's reading of a string literal.
*/
module DumpWriter {
  import opened Text
  import opened Splitter
  import opened ChunkIndependence
  import opened Framing
  import DdlScan
  import Packing

  /** A cell. `Number` carries the decimal text of an integer, float or decimal. */
  datatype Value = Null | Bool(b: bool) | Number(text: string) | String(s: string) | Bytes(bytes: string)

  /** What a dump is written with. `quote` is the identifier quote of the source dialect. */
  datatype Style = Style(quote: char, pg: bool, hexBlob: bool, extended: bool, completeInserts: bool,
                         overriding: string, maxBytes: nat)

  // ------------------------------------------------------------------- literals

  function EscapeChar(c: char): string {
    if c == '\'' then "''"
    else if c == '\\' then "\\\\"
    else if c == '\n' then "\\n"
    else if c == '\r' then "\\r"
    else if c == '\0' then "\\0"
    else [c]
  }

  function Escape(s: string): string {
    if s == "" then "" else EscapeChar(s[0]) + Escape(s[1..])
  }

  function Quoted(s: string): string {
    "'" + Escape(s) + "'"
  }

  function HexDigit(n: nat, upper: bool): char
    requires n < 16
  {
    if upper then "0123456789ABCDEF"[n] else "0123456789abcdef"[n]
  }

  function Hex(bytes: string, upper: bool): string {
    if bytes == "" then ""
    else
      var n := bytes[0] as int % 256;
      [HexDigit(n / 16, upper), HexDigit(n % 16, upper)] + Hex(bytes[1..], upper)
  }

  /** Each byte as a character of that number, in UTF-8: a byte from 128 on becomes two. */
  function Widened(bytes: string): string {
    if bytes == "" then ""
    else
      var n := bytes[0] as int % 256;
      (if n < 128 then [n as char] else [(192 + n / 64) as char, (128 + n % 64) as char]) + Widened(bytes[1..])
  }

  predicate Ascii(bytes: string) {
    forall i :: 0 <= i < |bytes| ==> bytes[i] as int < 128
  }

  lemma {:induction false} WidenedLength(bytes: string)
    ensures |Widened(bytes)| >= |bytes|
  {
    if bytes != "" {
      WidenedLength(bytes[1..]);
    }
  }

  /** Widening changes every blob that has a byte from 128 on, and no other. */
  lemma {:induction false} WidenedIff(bytes: string)
    ensures Widened(bytes) == bytes <==> Ascii(bytes)
  {
    if bytes != "" {
      var rest := bytes[1..];
      WidenedIff(rest);
      WidenedLength(rest);
      assert bytes == [bytes[0]] + rest;
      if bytes[0] as int < 128 {
        assert Widened(bytes) == [bytes[0]] + Widened(rest) && Widened(bytes)[1..] == Widened(rest);
        assert forall i :: 0 < i < |bytes| ==> bytes[i] == rest[i - 1];
      } else if bytes[0] as int % 256 < 128 {
        assert Widened(bytes)[0] != bytes[0];
      }
    }
  }

  function Literal(v: Value, style: Style): string {
    match v
    case Null => "NULL"
    case Bool(b) => if style.pg then (if b then "TRUE" else "FALSE") else if b then "1" else "0"
    case Number(text) => text
    case String(s) => Quoted(s)
    case Bytes(bytes) =>
      if style.pg then "'\\x" + Hex(bytes, false) + "'::bytea"
      else if style.hexBlob then "0x" + Hex(bytes, true)
      else Quoted(Widened(bytes))
  }

  /** MySQL's reading of a backslash and the character behind it: `\%` and `\_` stay as they are. */
  function Unescaped(c: char): string {
    match c
    case '0' => "\0"
    case 'n' => "\n"
    case 'r' => "\r"
    case 't' => "\t"
    case 'b' => [8 as char]
    case 'Z' => [26 as char]
    case '%' => "\\%"
    case '_' => "\\_"
    case _ => [c]
  }

  /** MySQL's reading of a string literal, from just past its opening quote: the value and what follows. */
  function ReadString(s: string): Option<(string, string)> {
    if s == "" then None
    else if s[0] == '\\' then
      if |s| < 2 then None else Prepend(Unescaped(s[1]), ReadString(s[2..]))
    else if s[0] == '\'' then
      if |s| > 1 && s[1] == '\'' then Prepend("'", ReadString(s[2..])) else Some(("", s[1..]))
    else Prepend([s[0]], ReadString(s[1..]))
  }

  function Prepend(front: string, r: Option<(string, string)>): Option<(string, string)> {
    match r
    case Some((value, rest)) => Some((front + value, rest))
    case None => None
  }

  lemma CharReads(c: char, tail: string)
    ensures ReadString(EscapeChar(c) + tail) == Prepend([c], ReadString(tail))
  {
    var e := EscapeChar(c);
    assert (e + tail)[|e|..] == tail && (e + tail)[0] == e[0] && (|e| == 2 ==> (e + tail)[1] == e[1]);
  }

  lemma QuoteCloses(rest: string)
    requires rest == "" || rest[0] != '\''
    ensures ReadString("'" + rest) == Some(("", rest))
  {
    assert ("'" + rest)[1..] == rest;
  }

  /** A printed string literal reads back as the value, and as nothing more than the value. */
  lemma {:induction false} LiteralRoundTrip(s: string, rest: string)
    requires rest == "" || rest[0] != '\''
    ensures ReadString(Escape(s) + "'" + rest) == Some((s, rest))
    decreases |s|
  {
    hide ReadString, EscapeChar;
    if s == "" {
      assert Escape(s) + "'" + rest == "'" + rest;
      QuoteCloses(rest);
    } else {
      var e, tail := EscapeChar(s[0]), Escape(s[1..]) + "'" + rest;
      LiteralRoundTrip(s[1..], rest);
      assert Escape(s) + "'" + rest == e + tail;
      CharReads(s[0], tail);
      assert s == [s[0]] + s[1..];
    }
  }

  // -------------------------------------------------- a literal that PostgreSQL reads

  /** A standard string literal, from just past its opening quote: only a doubled quote is special. */
  function ReadStandard(s: string): Option<(string, string)> {
    if s == "" then None
    else if s[0] == '\'' then
      if |s| > 1 && s[1] == '\'' then Prepend("'", ReadStandard(s[2..])) else Some(("", s[1..]))
    else Prepend([s[0]], ReadStandard(s[1..]))
  }

  /** What a standard reader makes of an escaped value: the escapes stay as they are written. */
  function Shown(s: string): string {
    if s == "" then ""
    else (if s[0] == '\'' then "'" else EscapeChar(s[0])) + Shown(s[1..])
  }

  predicate Escapes(c: char) {
    c == '\\' || c == '\n' || c == '\r' || c == '\0'
  }

  lemma StandardTurn(c: char, tail: string)
    ensures c != '\'' ==> ReadStandard([c] + tail) == Prepend([c], ReadStandard(tail))
    ensures ReadStandard("''" + tail) == Prepend("'", ReadStandard(tail))
    ensures tail == "" || tail[0] != '\'' ==> ReadStandard("'" + tail) == Some(("", tail))
  {
    assert ([c] + tail)[1..] == tail && ("''" + tail)[2..] == tail && ("'" + tail)[1..] == tail;
  }

  lemma PrependTwice(a: char, b: char, value: string, rest: string)
    ensures Prepend([a], Prepend([b], Some((value, rest)))) == Some(([a, b] + value, rest))
  {
    assert [a] + ([b] + value) == [a, b] + value;
  }

  lemma {:induction false} StandardReads(s: string, rest: string)
    requires rest == "" || rest[0] != '\''
    ensures ReadStandard(Escape(s) + "'" + rest) == Some((Shown(s), rest))
    decreases |s|
  {
    hide ReadStandard;
    if s == "" {
      assert Escape(s) + "'" + rest == "'" + rest;
      StandardTurn('x', rest);
    } else {
      var c, e, tail := s[0], EscapeChar(s[0]), Escape(s[1..]) + "'" + rest;
      StandardReads(s[1..], rest);
      assert Escape(s) + "'" + rest == e + tail;
      if Escapes(c) {
        assert e + tail == [e[0]] + ([e[1]] + tail) && e == [e[0], e[1]];
        StandardTurn(e[1], tail);
        StandardTurn(e[0], [e[1]] + tail);
        PrependTwice(e[0], e[1], Shown(s[1..]), rest);
      } else {
        StandardTurn(c, tail);
      }
    }
  }

  lemma {:induction false} ShownIff(s: string)
    ensures |Shown(s)| >= |s|
    ensures Shown(s) == s <==> forall i :: 0 <= i < |s| ==> !Escapes(s[i])
  {
    if s != "" {
      var rest := s[1..];
      ShownIff(rest);
      assert s == [s[0]] + rest;
      if !Escapes(s[0]) {
        assert Shown(s) == [s[0]] + Shown(rest) && Shown(s)[1..] == Shown(rest);
        assert forall i :: 0 < i < |s| ==> s[i] == rest[i - 1];
      }
    }
  }

  /**
    The printer escapes with backslashes for PostgreSQL too. Where strings are
    standard, a printed one reads back as the value exactly when the value has no
    backslash, LF, CR or NUL.
  */
  lemma StandardRoundTripIff(s: string, rest: string)
    requires rest == "" || rest[0] != '\''
    ensures ReadStandard(Escape(s) + "'" + rest) == Some((s, rest)) <==> forall i :: 0 <= i < |s| ==> !Escapes(s[i])
  {
    StandardReads(s, rest);
    ShownIff(s);
  }

  // ---------------------------------------------------------- what is quiet about them

  /** The decimal text of a finite number: digits and points, perhaps after a minus. */
  predicate NumberText(t: string) {
    && t != ""
    && (t[0] == '-' ==> |t| > 1)
    && forall i :: 0 <= i < |t| ==> IsDigit(t[i]) || t[i] == '.' || (i == 0 && t[i] == '-')
  }

  /** One character per byte. */
  predicate Octets(bytes: string) {
    forall i :: 0 <= i < |bytes| ==> bytes[i] as int < 256
  }

  predicate ValueOk(v: Value) {
    (v.Number? ==> NumberText(v.text)) && (v.Bytes? ==> Octets(v.bytes))
  }

  /** A text that stays quiet in front of any of the characters that end a list entry. */
  predicate Sealed(part: string) {
    && part != ""
    && Quiet(part + ",") && Quiet(part + ")") && Quiet(part + " ") && Quiet(part + ".")
  }

  predicate Closer(b: string) {
    b == "," || b == ")" || b == " " || b == "."
  }

  lemma SealedBy(part: string)
    requires part != ""
    requires forall b | Closer(b) :: Quiet(part + b)
    ensures Sealed(part)
  {
    assert Closer(",") && Closer(")") && Closer(" ") && Closer(".");
  }

  lemma {:induction false} EscapedIsQuiet(s: string, b: string)
    requires |b| > 0 && b[0] != '\'' && Quiet(b)
    ensures QuietFrom(Some('\''), Escape(s) + "'" + b)
    decreases |s|
  {
    if s == "" {
      assert Escape(s) + "'" + b == "'" + b && ("'" + b)[1..] == b;
    } else {
      var e, tail := EscapeChar(s[0]), Escape(s[1..]) + "'" + b;
      EscapedIsQuiet(s[1..], b);
      assert Escape(s) + "'" + b == e + tail;
      assert (e + tail)[|e|..] == tail && (e + tail)[0] == e[0] && (|e| == 2 ==> (e + tail)[1] == e[1]);
    }
  }

  lemma QuotedIsQuiet(s: string, b: string)
    requires |b| > 0 && b[0] != '\'' && Quiet(b)
    ensures Quiet(Quoted(s) + b)
  {
    EscapedIsQuiet(s, b);
    assert Quoted(s) + b == "'" + (Escape(s) + "'" + b);
    assert ("'" + (Escape(s) + "'" + b))[1..] == Escape(s) + "'" + b;
  }

  lemma {:induction false} HexIsPlain(bytes: string, upper: bool)
    ensures forall i :: 0 <= i < |Hex(bytes, upper)| ==> IsIdent(Hex(bytes, upper)[i])
  {
    if bytes != "" {
      HexIsPlain(bytes[1..], upper);
    }
  }

  lemma {:induction false} PlainQuotedIsQuiet(t: string, b: string)
    requires forall i :: 0 <= i < |t| ==> IsIdent(t[i])
    requires |b| > 0 && b[0] != '\'' && Quiet(b)
    ensures QuietFrom(Some('\''), t + "'" + b)
    decreases |t|
  {
    if t == "" {
      assert t + "'" + b == "'" + b && ("'" + b)[1..] == b;
    } else {
      assert (t + "'" + b)[1..] == t[1..] + "'" + b;
      PlainQuotedIsQuiet(t[1..], b);
    }
  }

  lemma {:induction false} NumberIsQuiet(t: string, b: string)
    requires NumberText(t) && Closer(b)
    ensures Quiet(t + b)
  {
    if t[0] == '-' {
      PlainIsQuiet(t[1..] + b);
      assert (t + b)[1..] == t[1..] + b && (t + b)[1] == t[1];
    } else {
      PlainIsQuiet(t + b);
    }
  }

  lemma OpensWithPair(c: char, rest: string)
    requires QuietFrom(Some('\''), rest)
    ensures Quiet("'" + (['\\', c] + rest))
  {
    var inner := ['\\', c] + rest;
    assert ("'" + inner)[1..] == inner && inner[2..] == rest;
  }

  lemma PgBytesText(h: string, b: string)
    ensures "'\\x" + h + "'::bytea" + b == "'" + (['\\', 'x'] + (h + "'" + ("::bytea" + b)))
  {
    assert "'\\x" == "'" + ['\\', 'x'] && "'::bytea" == "'" + "::bytea";
  }

  lemma PgBytesAreQuiet(h: string, b: string)
    requires (forall i :: 0 <= i < |h| ==> IsIdent(h[i])) && Closer(b)
    ensures Quiet("'\\x" + h + "'::bytea" + b)
  {
    hide QuietFrom, Quiet;
    var cast := "::bytea" + b;
    PlainIsQuiet(cast);
    PlainQuotedIsQuiet(h, cast);
    OpensWithPair('x', h + "'" + cast);
    PgBytesText(h, b);
  }

  lemma BytesAreQuiet(bytes: string, style: Style, b: string)
    requires Closer(b)
    ensures Quiet(Literal(Bytes(bytes), style) + b)
  {
    if style.pg {
      HexIsPlain(bytes, false);
      PgBytesAreQuiet(Hex(bytes, false), b);
    } else if style.hexBlob {
      HexIsPlain(bytes, true);
      PlainIsQuiet("0x" + Hex(bytes, true) + b);
    } else {
      PlainIsQuiet(b);
      QuotedIsQuiet(Widened(bytes), b);
    }
  }

  lemma LiteralSealed(v: Value, style: Style)
    requires ValueOk(v)
    ensures Sealed(Literal(v, style))
  {
    var lit := Literal(v, style);
    forall b | Closer(b) ensures Quiet(lit + b) {
      PlainIsQuiet(b);
      match v
      case Number(t) => NumberIsQuiet(t, b);
      case String(s) => QuotedIsQuiet(s, b);
      case Bytes(bytes) => BytesAreQuiet(bytes, style, b);
      case _ => PlainIsQuiet(lit + b);
    }
    SealedBy(lit);
  }

  // ---------------------------------------------------------------- identifiers

  function Ident(name: string, q: char): string {
    [q] + Double(name, q) + [q]
  }

  /** Backslashes pair up with characters other than the quote. */
  predicate IdentOk(name: string, q: char) {
    if name == "" then true
    else if name[0] == '\\' then |name| > 1 && name[1] != q && IdentOk(name[2..], q)
    else IdentOk(name[1..], q)
  }

  /** Once a backslash has taken one half of a doubled quote, the span ends too early or too late. */
  lemma {:induction false} ShiftedSpan(name: string, q: char, tail: string)
    requires q != '\\' && tail != "" && tail[0] != q
    ensures DdlScan.Span(q, [q] + Double(name, q) + [q] + tail) != Some(|Double(name, q)| + 2)
    decreases |name|
  {
    var all := [q] + Double(name, q) + [q] + tail;
    if name == "" {
      assert all == [q, q] + tail && all[2..] == tail;
      assert Double(name, q) == "";
    } else if name[0] == q {
      assert Double(name, q) == [q, q] + Double(name[1..], q);
      assert all[0] == q && all[1] == q && all[2..] == [q] + Double(name[1..], q) + [q] + tail;
      ShiftedSpan(name[1..], q, tail);
    } else {
      assert Double(name, q)[0] == name[0];
      assert all[0] == q && all[1] == name[0];
    }
  }

  /** One turn of the splitter inside a quoted span: past a character, past a pair, or out of the span. */
  lemma SpanTurn(q: char, head: string, tail: string)
    ensures |head| == 1 && head[0] != q && head[0] != '\\' ==>
              DdlScan.Span(q, head + tail) == Longer(DdlScan.Span(q, tail), 1)
    ensures |head| == 2 && (head[0] == '\\' || head == [q, q]) ==>
              DdlScan.Span(q, head + tail) == Longer(DdlScan.Span(q, tail), 2)
    ensures head == [q] && q != '\\' && (tail == "" || tail[0] != q) ==> DdlScan.Span(q, head + tail) == Some(1)
  {
    assert (head + tail)[|head|..] == tail;
  }

  /** How the doubled form starts. */
  lemma DoubleHead(name: string, q: char, tail: string)
    requires name != ""
    ensures Double(name, q) + [q] + tail
         == (if name[0] == q then [q, q] else [name[0]]) + (Double(name[1..], q) + [q] + tail)
  {
    Assoc(if name[0] == q then [q, q] else [name[0]], Double(name[1..], q), [q] + tail);
    Assoc(Double(name, q), [q], tail);
    Assoc(Double(name[1..], q), [q], tail);
  }

  /** A doubled identifier is one span exactly when its backslashes pair up. */
  lemma {:induction false} IdentSpanIff(name: string, q: char, tail: string)
    requires q != '\\' && tail != "" && tail[0] != q
    ensures DdlScan.Span(q, Double(name, q) + [q] + tail) == Some(|Double(name, q)| + 1) <==> IdentOk(name, q)
    decreases |name|, 1
  {
    hide DdlScan.Span;
    if name == "" {
      assert Double(name, q) + [q] + tail == [q] + tail;
      SpanTurn(q, [q], tail);
    } else if name[0] != '\\' {
      var head, rest := if name[0] == q then [q, q] else [name[0]], Double(name[1..], q) + [q] + tail;
      DoubleHead(name, q, tail);
      SpanTurn(q, head, rest);
      IdentSpanIff(name[1..], q, tail);
    } else if |name| == 1 {
      assert Double(name, q) == "\\" by { assert name[1..] == ""; }
      SpanTurn(q, "\\" + [q], tail);
    } else {
      EscapedSpanIff(name, q, tail);
    }
  }

  /** What a name that starts with a backslash turns into. */
  lemma EscapedText(name: string, q: char, tail: string)
    requires q != '\\' && |name| > 1 && name[0] == '\\'
    ensures |Double(name, q)| == |Double(name[2..], q)| + if name[1] == q then 3 else 2
    ensures Double(name, q) + [q] + tail
         == ['\\', name[1]] + ((if name[1] == q then [q] else []) + Double(name[2..], q) + [q] + tail)
  {
    var more, d := name[1..], Double(name[2..], q);
    assert more[0] == name[1] && more[1..] == name[2..];
    assert Double(more, q) == (if name[1] == q then [q, q] else [name[1]]) + d;
    assert Double(name, q) == ['\\'] + Double(more, q);
    assert Double(name, q) == ['\\', name[1]] + ((if name[1] == q then [q] else []) + d);
    AssocFour(['\\', name[1]], (if name[1] == q then [q] else []) + d, [q], tail);
  }

  lemma {:induction false} EscapedSpanIff(name: string, q: char, tail: string)
    requires q != '\\' && tail != "" && tail[0] != q && |name| > 1 && name[0] == '\\'
    ensures DdlScan.Span(q, Double(name, q) + [q] + tail) == Some(|Double(name, q)| + 1) <==> IdentOk(name, q)
    decreases |name|, 0
  {
    hide DdlScan.Span, Double;
    EscapedText(name, q, tail);
    var rest := (if name[1] == q then [q] else []) + Double(name[2..], q) + [q] + tail;
    SpanTurn(q, ['\\', name[1]], rest);
    if name[1] == q {
      ShiftedSpan(name[2..], q, tail);
    } else {
      assert [] + Double(name[2..], q) == Double(name[2..], q);
      IdentSpanIff(name[2..], q, tail);
    }
  }

  /** Bytes the splitter reads until it leaves the quoted span it is in; `None` if it never does. */
  function Leaves(st: State, s: string): Option<nat>
    requires st.mode.Quote? && st.delim != ""
    decreases |s|
  {
    if s == "" then None
    else
      var t := Step(st, s);
      if t.st.mode.Quote? then Longer(Leaves(t.st, s[t.n..]), t.n) else Some(t.n)
  }

  lemma {:induction false} LeavesIsSpan(st: State, s: string)
    requires st.mode.Quote? && st.delim != ""
    ensures Leaves(st, s) == DdlScan.Span(st.mode.q, s)
    decreases |s|
  {
    if s != "" && Step(st, s).st.mode.Quote? {
      LeavesIsSpan(Step(st, s).st, s[Step(st, s).n..]);
    }
  }

  /** The bytes of a turn inside a quoted span go into the buffer. */
  lemma QuoteTurn(st: State, s: string)
    requires st.mode.Quote? && st.delim != "" && s != ""
    ensures var t := Step(st, s);
            t.items == [] && t.st == st.(buf := st.buf + s[..t.n], mode := t.st.mode)
            && (t.st.mode == st.mode || t.st.mode == Normal)
  {
    assert s[..1] == [s[0]] && (|s| > 1 ==> s[..2] == [s[0], s[1]]);
  }

  /** One turn inside a quoted span, for what is read and for where the span ends. */
  lemma LeavesTurn(st: State, s: string)
    requires st.mode.Quote? && st.delim != "" && s != ""
    ensures var t := Step(st, s);
            && Whole(st, s) == Whole(t.st, s[t.n..])
            && Leaves(st, s) == if t.st.mode.Quote? then Longer(Leaves(t.st, s[t.n..]), t.n) else Some(t.n)
  {
    hide Whole, Step;
    QuoteTurn(st, s);
    WholeTurn(st, s);
    NoItems(Whole(Step(st, s).st, s[Step(st, s).n..]));
  }

  /** A buffer and a text, with a piece of the text moved from one to the other. */
  lemma MovePiece(buf: string, s: string, n: nat, k: nat)
    requires n + k <= |s|
    ensures buf + s[..n] + s[n..][..k] == buf + s[..n + k] && s[n..][k..] == s[n + k..]
    ensures buf + s[..n] + s[n..] == buf + s
  {
    assert s[..n] + s[n..][..k] == s[..n + k] && s[..n] + s[n..] == s;
  }

  /** What the splitter reads from inside a quoted span: the span, then what follows it; or one statement to the end. */
  lemma {:induction false} LeavesReads(st: State, s: string)
    requires st.mode.Quote? && st.delim != ""
    ensures match Leaves(st, s)
            case Some(n) => n <= |s| && Whole(st, s) == Whole(st.(buf := st.buf + s[..n], mode := Normal), s[n..])
            case None => Whole(st, s) == Flushed(st.buf + s)
    decreases |s|
  {
    if s == "" {
      assert st.buf + s == st.buf && [] + Flushed(st.buf) == Flushed(st.buf);
    } else {
      var t := Step(st, s);
      var rest := s[t.n..];
      LeavesTurn(st, s);
      QuoteTurn(st, s);
      MovePiece(st.buf, s, t.n, 0);
      hide Whole, Step, Leaves, Flushed;
      if t.st.mode.Quote? {
        LeavesReads(t.st, rest);
        if Leaves(t.st, rest).Some? {
          MovePiece(st.buf, s, t.n, Leaves(t.st, rest).value);
        }
      }
    }
  }

  /** The splitter leaves a quoted identifier at its own closing quote exactly when its backslashes pair up. */
  lemma IdentReadIff(st: State, name: string, tail: string)
    requires st.mode.Quote? && st.delim != "" && st.mode.q != '\\' && tail != "" && tail[0] != st.mode.q
    ensures var body := Double(name, st.mode.q) + [st.mode.q];
            Leaves(st, body + tail) == Some(|body|) <==> IdentOk(name, st.mode.q)
  {
    LeavesIsSpan(st, Double(name, st.mode.q) + [st.mode.q] + tail);
    IdentSpanIff(name, st.mode.q, tail);
  }

  /** The splitter's state inside an identifier that has just been opened. */
  function Opened(buf: string, q: char): State {
    Inside(buf + [q], Some(q))
  }

  lemma OpensIdent(buf: string, q: char, rest: string)
    requires IsQuote(q)
    ensures Whole(Inside(buf, None), [q] + rest) == Whole(Opened(buf, q), rest)
  {
    hide Whole;
    assert ([q] + rest)[0] == q && ([q] + rest)[1..] == rest;
    assert Upper(q) != Upper("DELIMITER"[0]);
    WholeTurn(Inside(buf, None), [q] + rest);
    NoItems(Whole(Opened(buf, q), rest));
  }

  /** A name whose backslashes pair up is buffered as it stands, and reading goes on behind it. */
  lemma IdentReads(buf: string, name: string, q: char, tail: string)
    requires IsQuote(q) && IdentOk(name, q) && tail != "" && tail[0] != q
    ensures Whole(Inside(buf, None), Ident(name, q) + tail) == Whole(Inside(buf + Ident(name, q), None), tail)
  {
    hide Whole, Leaves;
    var body := Double(name, q) + [q];
    assert Ident(name, q) + tail == [q] + (body + tail) && buf + [q] + body == buf + Ident(name, q);
    OpensIdent(buf, q, body + tail);
    IdentReadIff(Opened(buf, q), name, tail);
    LeavesReads(Opened(buf, q), body + tail);
    assert (body + tail)[..|body|] == body && (body + tail)[|body|..] == tail;
  }

  lemma {:induction false} SpanPasses(name: string, q: char, tail: string)
    requires q != '\\' && IdentOk(name, q)
    ensures DdlScan.Span(q, Double(name, q) + tail) == Longer(DdlScan.Span(q, tail), |Double(name, q)|)
    decreases |name|
  {
    hide DdlScan.Span;
    if name == "" {
      assert Double(name, q) + tail == tail;
    } else {
      var k := if name[0] == '\\' then 2 else 1;
      var head, more := Double(name[..k], q), Double(name[k..], q) + tail;
      DoubleSplits(name, k, q);
      assert Double(name, q) + tail == head + more;
      SpanTurn(q, head, more);
      SpanPasses(name[k..], q, tail);
    }
  }

  /** The first character of a name, or its first pair, doubled. */
  lemma DoubleSplits(name: string, k: nat, q: char)
    requires q != '\\' && name != "" && IdentOk(name, q) && k == if name[0] == '\\' then 2 else 1
    ensures k <= |name| && IdentOk(name[k..], q) && Double(name, q) == Double(name[..k], q) + Double(name[k..], q)
    ensures Double(name[..k], q) == if k == 2 then name[..2] else if name[0] == q then [q, q] else [name[0]]
  {
    assert name == name[..k] + name[k..];
    DoubleAppend(name[..k], name[k..], q);
    if k == 2 {
      assert name[1] != q;
      PairStays(name[0], name[1], q);
      assert name[..2] == [name[0], name[1]];
    } else {
      assert name[..1] == [name[0]] && [name[0]][1..] == "";
    }
  }

  lemma PairStays(a: char, b: char, q: char)
    requires a != q && b != q
    ensures Double([a, b], q) == [a, b]
  {
    assert [a, b][1..] == [b] && [b][1..] == "" && Double([b], q) == [b];
  }

  lemma {:induction false} NoQuoteNoSpan(q: char, s: string)
    requires q !in s
    ensures DdlScan.Span(q, s) == None
    decreases |s|
  {
    if s != "" {
      NoQuoteNoSpan(q, if s[0] == '\\' && |s| > 1 then s[2..] else s[1..]);
    }
  }

  /**
    A name that ends in an unpaired backslash: the backslash takes the closing quote,
    and everything up to the next one, statements and their `;` included, is read as
    part of the name.
  */
  lemma BackslashSwallows(buf: string, name: string, q: char, tail: string)
    requires IsQuote(q) && IdentOk(name, q) && q !in tail
    ensures Whole(Inside(buf, None), Ident(name + "\\", q) + tail) == Flushed(buf + Ident(name + "\\", q) + tail)
  {
    hide Whole, Leaves, DdlScan.Span;
    var d := Double(name, q);
    DoubleAppend(name, "\\", q);
    assert "\\"[1..] == "" && Double("\\", q) == "\\";
    var body := d + (['\\', q] + tail);
    assert Ident(name + "\\", q) + tail == [q] + body;
    assert buf + [q] + body == buf + Ident(name + "\\", q) + tail;
    OpensIdent(buf, q, body);
    SpanPasses(name, q, ['\\', q] + tail);
    SpanTurn(q, ['\\', q], tail);
    NoQuoteNoSpan(q, tail);
    LeavesIsSpan(Opened(buf, q), body);
    LeavesReads(Opened(buf, q), body);
  }

  lemma {:induction false} DoubledIsQuiet(name: string, q: char, b: string)
    requires q != '\\' && IdentOk(name, q) && b != "" && b[0] != q && Quiet(b)
    ensures QuietFrom(Some(q), Double(name, q) + [q] + b)
    decreases |name|
  {
    var all := Double(name, q) + [q] + b;
    if name == "" {
      assert all == [q] + b && all[1..] == b && all[1] == b[0];
    } else if name[0] == '\\' {
      assert name[1..][0] == name[1] && name[1..][1..] == name[2..];
      var d := Double(name[2..], q);
      assert Double(name, q) == "\\" + ([name[1]] + d);
      assert all[0] == '\\' && all[2..] == d + [q] + b;
      DoubledIsQuiet(name[2..], q, b);
    } else {
      var d := Double(name[1..], q);
      var n := if name[0] == q then 2 else 1;
      assert Double(name, q) == (if name[0] == q then [q, q] else [name[0]]) + d;
      assert all[0] == name[0] && all[n..] == d + [q] + b;
      assert n == 2 ==> all[1] == q;
      DoubledIsQuiet(name[1..], q, b);
    }
  }

  lemma IdentSealed(name: string, q: char)
    requires IsQuote(q) && IdentOk(name, q)
    ensures Sealed(Ident(name, q))
  {
    forall b | Closer(b) ensures Quiet(Ident(name, q) + b) {
      PlainIsQuiet(b);
      DoubledIsQuiet(name, q, b);
      var inner := Double(name, q) + [q] + b;
      assert Ident(name, q) + b == [q] + inner && ([q] + inner)[1..] == inner;
    }
    SealedBy(Ident(name, q));
  }

  // ------------------------------------------------------------------- lists, rows

  lemma {:induction false} SealedJoin(parts: seq<string>)
    requires forall k :: 0 <= k < |parts| ==> Sealed(parts[k])
    ensures Quiet(Join(parts, ", ") + ")")
  {
    if parts == [] {
      PlainIsQuiet(")");
      assert "" + ")" == ")";
    } else if |parts| > 1 {
      var tail := Join(parts[1..], ", ") + ")";
      SealedJoin(parts[1..]);
      PlainIsQuiet(" ");
      QuietAppend(None, " ", tail);
      QuietAppend(None, parts[0] + ",", " " + tail);
      assert Join(parts, ", ") + ")" == parts[0] + "," + (" " + tail);
    }
  }

  function Literals(row: seq<Value>, style: Style): (r: seq<string>)
    ensures |r| == |row| && forall i :: 0 <= i < |row| ==> r[i] == Literal(row[i], style)
  {
    seq(|row|, i requires 0 <= i < |row| => Literal(row[i], style))
  }

  function RowSql(row: seq<Value>, style: Style): string {
    "  (" + Join(Literals(row, style), ", ") + ")"
  }

  lemma RowIsQuiet(row: seq<Value>, style: Style)
    requires forall i :: 0 <= i < |row| ==> ValueOk(row[i])
    ensures Quiet(RowSql(row, style))
  {
    var lits := Literals(row, style);
    forall k | 0 <= k < |lits| ensures Sealed(lits[k]) {
      LiteralSealed(row[k], style);
    }
    SealedJoin(lits);
    PlainIsQuiet("  (");
    QuietAppend(None, "  (", Join(lits, ", ") + ")");
    assert RowSql(row, style) == "  (" + (Join(lits, ", ") + ")");
  }

  function Idents(names: seq<string>, q: char): (r: seq<string>)
    ensures |r| == |names| && forall i :: 0 <= i < |names| ==> r[i] == Ident(names[i], q)
  {
    seq(|names|, i requires 0 <= i < |names| => Ident(names[i], q))
  }

  /** One batch of a table, and the columns that must not be written. */
  datatype Batch = Batch(
    schema: string, table: string, columns: seq<string>, generated: set<string>, rows: seq<seq<Value>>)

  function ColumnList(b: Batch, style: Style): string {
    if style.completeInserts || b.generated != {} then
      " (" + Join(Idents(Packing.Kept(b.columns, Packing.KeepMask(b.columns, b.generated)), style.quote), ", ") + ")"
    else ""
  }

  function Prefix(b: Batch, style: Style): string {
    "INSERT INTO " + Ident(b.schema, style.quote) + "." + Ident(b.table, style.quote)
      + ColumnList(b, style) + style.overriding + " VALUES\n"
  }

  function RowTexts(b: Batch, style: Style): (r: seq<string>)
    ensures |r| == |b.rows|
    ensures forall i :: 0 <= i < |r| ==>
              r[i] == RowSql(Packing.Kept(b.rows[i], Packing.KeepMask(b.columns, b.generated)), style)
  {
    seq(|b.rows|, i requires 0 <= i < |b.rows| =>
      RowSql(Packing.Kept(b.rows[i], Packing.KeepMask(b.columns, b.generated)), style))
  }

  /** Plain characters only, and not the start of a new line's `D`. */
  predicate Harmless(t: string) {
    (forall i :: 0 <= i < |t| ==> Plain(t[i])) && (t != "" ==> t[0] == ' ')
  }

  predicate BatchOk(b: Batch, style: Style) {
    && IsQuote(style.quote) && Harmless(style.overriding)
    && IdentOk(b.schema, style.quote) && IdentOk(b.table, style.quote)
    && (forall c :: c in b.columns ==> IdentOk(c, style.quote))
    && (forall r, i :: 0 <= r < |b.rows| && 0 <= i < |b.rows[r]| ==> ValueOk(b.rows[r][i]))
  }

  lemma ColumnListIsQuiet(b: Batch, style: Style)
    requires BatchOk(b, style)
    ensures Quiet(ColumnList(b, style)) && (ColumnList(b, style) != "" ==> ColumnList(b, style)[0] == ' ')
  {
    var kept := Packing.Kept(b.columns, Packing.KeepMask(b.columns, b.generated));
    var names := Idents(kept, style.quote);
    forall k | 0 <= k < |names| ensures Sealed(names[k]) {
      assert kept[k] in kept;
      Packing.NothingElseDropped(b.columns, b.generated, kept[k]);
      IdentSealed(kept[k], style.quote);
    }
    SealedJoin(names);
    PlainIsQuiet(" (");
    QuietAppend(None, " (", Join(names, ", ") + ")");
    assert " (" + Join(names, ", ") + ")" == " (" + (Join(names, ", ") + ")");
  }

  lemma ValuesIsQuiet()
    ensures Quiet(" VALUES\n")
  {
    PlainIsQuiet(" VALUES");
    assert Quiet("\n");
    QuietAppend(None, " VALUES", "\n");
    assert " VALUES" + "\n" == " VALUES\n";
  }

  /** What follows the table name in an insert's prefix. */
  function PrefixTail(b: Batch, style: Style): string {
    ColumnList(b, style) + style.overriding + " VALUES\n"
  }

  lemma PrefixTailIsQuiet(b: Batch, style: Style)
    requires BatchOk(b, style)
    ensures Quiet(PrefixTail(b, style)) && PrefixTail(b, style)[0] == ' '
  {
    var cols, ov := ColumnList(b, style), style.overriding;
    ColumnListIsQuiet(b, style);
    PlainIsQuiet(ov);
    QuietAppend(None, cols, ov);
    ValuesIsQuiet();
    QuietAppend(None, cols + ov, " VALUES\n");
  }

  lemma NameIsQuiet(name: string, q: char, tail: string)
    requires IsQuote(q) && IdentOk(name, q) && Quiet(tail)
    requires tail != "" && (tail[0] == ' ' || tail[0] == '.')
    ensures Quiet(Ident(name, q) + tail)
  {
    IdentSealed(name, q);
    assert tail == tail[..1] + tail[1..] && (tail[..1] == " " || tail[..1] == ".");
    QuietAppend(None, Ident(name, q) + tail[..1], tail[1..]);
    Assoc(Ident(name, q), tail[..1], tail[1..]);
  }

  lemma Regroup(a: string, b: string, c: string, d: string, e: string, f: string, g: string)
    ensures a + b + c + d + e + f + g == a + (b + (c + (d + (e + f + g))))
  {
  }

  lemma PrefixIsQuiet(b: Batch, style: Style)
    requires BatchOk(b, style)
    ensures Quiet(Prefix(b, style))
  {
    var head, s, t := "INSERT INTO ", Ident(b.schema, style.quote), Ident(b.table, style.quote);
    var tail := PrefixTail(b, style);
    PrefixTailIsQuiet(b, style);
    NameIsQuiet(b.table, style.quote, tail);
    PlainIsQuiet(".");
    QuietAppend(None, ".", t + tail);
    NameIsQuiet(b.schema, style.quote, "." + (t + tail));
    PlainIsQuiet(head);
    QuietAppend(None, head, s + ("." + (t + tail)));
    Regroup(head, s, ".", t, ColumnList(b, style), style.overriding, " VALUES\n");
  }

  // ---------------------------------------------------------------- the INSERTs

  const SEP := ",\n"

  /** Rows between the prefix and the terminator. */
  lemma {:induction false} RowsAreQuiet(rows: seq<string>)
    requires forall k :: 0 <= k < |rows| ==> Quiet(rows[k]) && StartsWith(rows[k], "  (")
    ensures Quiet(Join(rows, SEP)) && (rows != [] ==> StartsWith(Join(rows, SEP), "  ("))
  {
    if |rows| > 1 {
      var tail := Join(rows[1..], SEP);
      RowsAreQuiet(rows[1..]);
      PlainIsQuiet(",");
      assert Quiet("\n");
      QuietAppend(None, ",", "\n");
      assert "," + "\n" == SEP;
      QuietAppend(None, SEP, tail);
      QuietAppend(None, rows[0], SEP + tail);
      Assoc(rows[0], SEP, tail);
    }
  }

  lemma {:induction false} JoinEnds(rows: seq<string>, sep: string)
    requires rows != [] && forall k :: 0 <= k < |rows| ==> EndsWith(rows[k], ")")
    ensures EndsWith(Join(rows, sep), ")")
  {
    if |rows| > 1 {
      JoinEnds(rows[1..], sep);
    }
  }

  /** The text of one INSERT, without its terminator. */
  function Insert(b: Batch, style: Style, rows: seq<string>): string {
    Prefix(b, style) + Join(rows, SEP)
  }

  /** An INSERT of the dump is a statement text the splitter takes as it stands. */
  lemma InsertIsQuiet(b: Batch, style: Style, rows: seq<string>)
    requires BatchOk(b, style) && rows != []
    requires forall k :: 0 <= k < |rows| ==>
               Quiet(rows[k]) && StartsWith(rows[k], "  (") && EndsWith(rows[k], ")")
    ensures WellLaid(Sql(Insert(b, style, rows), "\n\n")) && WellLaid(Sql(Insert(b, style, rows), "\n"))
  {
    var p, j := Prefix(b, style), Join(rows, SEP);
    PrefixIsQuiet(b, style);
    RowsAreQuiet(rows);
    JoinEnds(rows, SEP);
    QuietAppend(None, p, j);
    QuietCompletes(p + j);
    var text := p + j;
    assert text[|text| - 1] == j[|j| - 1];
    assert text[0] == 'I' && text[1] == 'N';
  }

  /** The pieces of an output: one statement per group of rows. */
  function Pieces(b: Batch, style: Style, groups: seq<seq<string>>, gap: string): (r: seq<Piece>)
    ensures |r| == |groups| && forall k :: 0 <= k < |r| ==> r[k] == Sql(Insert(b, style, groups[k]), gap)
  {
    if groups == [] then []
    else [Sql(Insert(b, style, groups[0]), gap)] + Pieces(b, style, groups[1..], gap)
  }

  /** One group per row: the layout without extended inserts. */
  function Singles(rows: seq<string>): (r: seq<seq<string>>)
    ensures |r| == |rows| && forall k :: 0 <= k < |r| ==> r[k] == [rows[k]]
  {
    seq(|rows|, k requires 0 <= k < |rows| => [rows[k]])
  }

  function Groups(b: Batch, style: Style): seq<seq<string>> {
    if style.extended then Packing.Pack(Prefix(b, style), SEP, [], RowTexts(b, style), style.maxBytes)
    else Singles(RowTexts(b, style))
  }

  function Gap(style: Style): string {
    if style.extended then "\n\n" else "\n"
  }

  /** Everything `write_batch` writes for one batch. */
  function Output(b: Batch, style: Style): string {
    PrintAll(Pieces(b, style, Groups(b, style), Gap(style)))
  }

  method Emit(chunks: seq<string>) returns (out: string)
    ensures out == Flatten(chunks)
  {
    out := "";
    for k := 0 to |chunks|
      invariant out + Flatten(chunks[k..]) == Flatten(chunks)
    {
      assert chunks[k..][1..] == chunks[k + 1..];
      Assoc(out, chunks[k], Flatten(chunks[k + 1..]));
      out := out + chunks[k];
    }
    assert out + "" == out;
  }

  lemma {:induction false} PrintPieces(b: Batch, style: Style, groups: seq<seq<string>>, gap: string)
    ensures Flatten(Packing.Statements(Prefix(b, style), SEP, ";" + gap, groups))
         == PrintAll(Pieces(b, style, groups, gap))
  {
    if groups != [] {
      Assoc(Insert(b, style, groups[0]), ";", gap);
      PrintPieces(b, style, groups[1..], gap);
    }
  }

  method WriteBatch(b: Batch, style: Style) returns (out: string)
    ensures out == Output(b, style)
  {
    var rows := RowTexts(b, style);
    var prefix := Prefix(b, style);
    PrintPieces(b, style, Groups(b, style), Gap(style));
    assert ";\n\n" == ";" + "\n\n" && ";\n" == ";" + "\n";
    if style.extended {
      var sent := Packing.WritePacked(prefix, SEP, ";\n\n", rows, style.maxBytes);
      out := Emit(sent);
    } else {
      var sent := seq(|rows|, k requires 0 <= k < |rows| => prefix + rows[k] + ";\n");
      assert sent == Packing.Statements(prefix, SEP, ";\n", Singles(rows));
      out := Emit(sent);
    }
  }

  lemma {:induction false} KeptOk(row: seq<Value>, keep: seq<bool>)
    requires forall i :: 0 <= i < |row| ==> ValueOk(row[i])
    ensures forall i :: 0 <= i < |Packing.Kept(row, keep)| ==> ValueOk(Packing.Kept(row, keep)[i])
  {
    if row != [] && keep != [] {
      KeptOk(row[1..], keep[1..]);
    }
  }

  lemma {:induction false} MemberOfGroup(groups: seq<seq<string>>, k: nat, i: nat)
    requires k < |groups| && i < |groups[k]|
    ensures groups[k][i] in Flatten(groups)
  {
    if k > 0 {
      MemberOfGroup(groups[1..], k - 1, i);
    }
  }

  lemma {:induction false} FlattenSingles(rows: seq<string>)
    ensures Flatten(Singles(rows)) == rows
  {
    if rows != [] {
      assert Singles(rows)[1..] == Singles(rows[1..]);
      FlattenSingles(rows[1..]);
    }
  }

  lemma GroupsPartition(b: Batch, style: Style)
    ensures Flatten(Groups(b, style)) == RowTexts(b, style)
    ensures forall k :: 0 <= k < |Groups(b, style)| ==> Groups(b, style)[k] != []
  {
    var rows := RowTexts(b, style);
    Packing.PackPartitions(Prefix(b, style), SEP, [], rows, style.maxBytes);
    FlattenSingles(rows);
    assert [] + rows == rows;
  }

  /**
    Without extended inserts each row has a statement of its own. With them a statement
    of several rows is within the cap, and none is ended that could have taken the next
    row.
  */
  lemma GroupsShape(b: Batch, style: Style)
    ensures !style.extended ==> forall k :: 0 <= k < |Groups(b, style)| ==> |Groups(b, style)[k]| == 1
    ensures style.extended ==>
              var g, p := Groups(b, style), "INSERT INTO " + Ident(b.schema, style.quote) + "."
                + Ident(b.table, style.quote) + ColumnList(b, style) + style.overriding + " VALUES\n";
              && (forall k :: 0 <= k < |g| && |g[k]| > 1 ==> |p + Join(g[k], ",\n")| <= style.maxBytes)
              && (forall k :: 0 < k < |g| ==>
                    g[k] != [] && |p + Join(g[k - 1], ",\n")| + 2 + |g[k][0]| > style.maxBytes)
  {
    hide Ident, ColumnList;
    Packing.PackPartitions(Prefix(b, style), SEP, [], RowTexts(b, style), style.maxBytes);
  }

  lemma RowTextsAreQuiet(b: Batch, style: Style)
    requires BatchOk(b, style)
    ensures forall t :: t in RowTexts(b, style) ==> Quiet(t) && StartsWith(t, "  (") && EndsWith(t, ")")
  {
    forall t | t in RowTexts(b, style) ensures Quiet(t) && StartsWith(t, "  (") && EndsWith(t, ")") {
      var r :| 0 <= r < |b.rows| && RowTexts(b, style)[r] == t;
      var keep := Packing.KeepMask(b.columns, b.generated);
      KeptOk(b.rows[r], keep);
      RowIsQuiet(Packing.Kept(b.rows[r], keep), style);
    }
  }

  /** The pieces of any output are well laid. */
  lemma OutputWellLaid(b: Batch, style: Style)
    requires BatchOk(b, style)
    ensures forall p :: p in Pieces(b, style, Groups(b, style), Gap(style)) ==> WellLaid(p)
  {
    var groups := Groups(b, style);
    var pieces := Pieces(b, style, groups, Gap(style));
    GroupsPartition(b, style);
    RowTextsAreQuiet(b, style);
    forall p | p in pieces ensures WellLaid(p) {
      var k :| 0 <= k < |pieces| && pieces[k] == p;
      forall i | 0 <= i < |groups[k]|
        ensures Quiet(groups[k][i]) && StartsWith(groups[k][i], "  (") && EndsWith(groups[k][i], ")")
      {
        MemberOfGroup(groups, k, i);
      }
      InsertIsQuiet(b, style, groups[k]);
    }
  }

  /**
    Printer/parser round trip: whatever the values, the splitter reads the output of
    one batch as exactly the statements written, texts unchanged, no marker, and the
    rows inside them are the batch's rows in order.
  */
  lemma BatchRoundTrip(pad: string, b: Batch, style: Style)
    requires Blank(pad) && BatchOk(b, style)
    ensures var groups := Groups(b, style);
            var items := Whole(Between(pad), Output(b, style));
            && |items| == |groups|
            && (forall k :: 0 <= k < |items| ==> items[k] == Stmt(Insert(b, style, groups[k])))
            && Flatten(groups) == RowTexts(b, style)
  {
    OutputWellLaid(b, style);
    GroupsPartition(b, style);
    hide Whole, Between, BatchOk, WellLaid;
    var pieces := Pieces(b, style, Groups(b, style), Gap(style));
    ReadsScript(pad, pieces);
    SqlMeanings(pieces);
  }

  lemma {:induction false} SqlMeanings(ps: seq<Piece>)
    requires forall k :: 0 <= k < |ps| ==> ps[k].Sql?
    ensures |MeaningAll(ps)| == |ps|
    ensures forall k :: 0 <= k < |ps| ==> MeaningAll(ps)[k] == Stmt(ps[k].text)
  {
    if ps != [] {
      SqlMeanings(ps[1..]);
    }
  }

  /** A table name that ends in an unpaired backslash takes the rest of its INSERT with it. */
  lemma NameSwallows(pad: string, schema: string, name: string, q: char, tail: string)
    requires Blank(pad) && IsQuote(q) && IdentOk(schema, q) && IdentOk(name, q) && q !in tail
    ensures var out := "INSERT INTO " + Ident(schema, q) + "." + Ident(name + "\\", q) + tail;
            Whole(Between(pad), out) == Flushed(pad + out)
  {
    hide Whole, Ident, IdentOk, Flushed;
    var head, s, t := "INSERT INTO ", Ident(schema, q), Ident(name + "\\", q);
    assert head + s + "." + t + tail == head + (s + ("." + (t + tail)));
    PlainReads(pad, head, s + ("." + (t + tail)));
    IdentReads(pad + head, schema, q, "." + (t + tail));
    PlainReads(pad + head + s, ".", t + tail);
    BackslashSwallows(pad + head + s + ".", name, q, tail);
    assert pad + head + s + "." + t + tail == pad + (head + s + "." + t + tail);
  }

  /** One row with one number in it, written without a column list. */
  lemma OneNumber(b: Batch, style: Style, digit: char)
    requires b.rows == [[Number([digit])]] && b.columns == ["id"] && b.generated == {}
    requires !style.extended && !style.completeInserts && style.overriding == ""
    ensures Output(b, style)
         == "INSERT INTO " + Ident(b.schema, style.quote) + "." + Ident(b.table, style.quote)
            + (" VALUES\n" + ("  (" + [digit] + ")") + ";" + "\n")
  {
    var keep := Packing.KeepMask(b.columns, b.generated);
    assert keep == [true] && [true][1..] == [];
    assert b.rows[0][1..] == [] && Packing.Kept(b.rows[0], keep) == b.rows[0];
    assert Literals(b.rows[0], style) == [[digit]];
    var text := "  (" + [digit] + ")";
    assert RowTexts(b, style) == [text] && Groups(b, style) == [[text]];
    assert [[text]][1..] == [];
    assert Prefix(b, style)
        == "INSERT INTO " + Ident(b.schema, style.quote) + "." + Ident(b.table, style.quote) + " VALUES\n";
    hide Ident, Prefix;
    var piece := Sql(Insert(b, style, [text]), "\n");
    assert Pieces(b, style, [[text]], "\n") == [piece];
    assert [piece][1..] == [] && PrintAll([piece]) == Print(piece) + "" == Print(piece);
    assert Join([text], SEP) == text;
  }

  /** So the round trip fails for such a table: the INSERT is read with its terminator in it. */
  lemma BackslashTable(b: Batch, style: Style, digit: char, name: string)
    requires b.rows == [[Number([digit])]] && b.columns == ["id"] && b.generated == {} && IsDigit(digit)
    requires !style.extended && !style.completeInserts && style.overriding == ""
    requires IsQuote(style.quote) && IdentOk(b.schema, style.quote) && IdentOk(name, style.quote)
    requires b.table == name + "\\"
    ensures exists text ::
              Output(b, style) == text + ";\n" && Whole(Between(""), Output(b, style)) == [Stmt(text + ";")]
  {
    hide Whole, Output, Ident, IdentOk, Trim, Double;
    var tail := " VALUES\n" + ("  (" + [digit] + ")") + ";" + "\n";
    var front := "INSERT INTO " + Ident(b.schema, style.quote) + "." + Ident(b.table, style.quote);
    var text := front + (" VALUES\n" + ("  (" + [digit] + ")"));
    OneNumber(b, style, digit);
    NameSwallows("", b.schema, name, style.quote, tail);
    assert front + tail == text + ";\n" && text + ";\n" == "" + (text + ";") + "\n";
    assert text[0] == 'I';
    TrimPadded("", text + ";", "\n");
    assert "" + (text + ";\n") == text + ";\n";
  }
}
