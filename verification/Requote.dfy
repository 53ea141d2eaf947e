/**
  The two identifier rewriters of src-tauri/src/sql_translate.rs
  (`rewrite_backticks_to_double_quotes`, `rewrite_double_quotes_to_backticks`): the
  tokens they see are strings (copied as raw text), decoded identifiers and single
  characters. Both read every string with backslash escapes.
*/
module Requote {
  import opened Text
  import opened DdlScan

  datatype Dialect = MySql | Postgres {
    /** The identifier quote. */
    function Tick(): char {
      if this == MySql then '`' else '"'
    }

    function Opposite(): Dialect {
      if this == MySql then Postgres else MySql
    }

    /** A character that opens a string. */
    predicate Opens(c: char) {
      c == '\'' || (this == MySql && c == '"')
    }
  }

  datatype Token = Str(raw: string) | Name(name: string) | Chr(c: char)

  // ----------------------------------------------------------- what the rewriters see

  /** An identifier from just past its opening quote: the name, the bytes read, whether it closes. */
  datatype Decoded = Decoded(name: string, used: nat, closed: bool) {
    function Behind(c: char, k: nat): Decoded {
      Decoded([c] + name, used + k, closed)
    }
  }

  function Decode(q: char, s: string): (r: Decoded)
    ensures r.used <= |s|
  {
    if s == "" then Decoded("", 0, false)
    else if s[0] != q then Decode(q, s[1..]).Behind(s[0], 1)
    else if |s| > 1 && s[1] == q then Decode(q, s[2..]).Behind(q, 2)
    else Decoded("", 1, true)
  }

  /** The token the rewriters see at the head of a text, and the bytes it takes. */
  function First(s: string, d: Dialect): (r: (Token, nat))
    requires s != ""
    ensures 1 <= r.1 <= |s|
  {
    if d.Opens(s[0]) then (Str(s[..Quoted(s)]), Quoted(s))
    else if s[0] == d.Tick() then
      var r := Decode(d.Tick(), s[1..]);
      (Name(r.name), 1 + r.used)
    else (Chr(s[0]), 1)
  }

  /** What the rewriter of dialect `d` sees in a text. */
  function Lex(s: string, d: Dialect): seq<Token> {
    if s == "" then []
    else
      var (t, n) := First(s, d);
      [t] + Lex(s[n..], d)
  }

  // ----------------------------------------------------------------- the writing

  function Write(t: Token, d: Dialect): string {
    match t
    case Str(raw) => raw
    case Name(name) => [d.Tick()] + Double(name, d.Tick()) + [d.Tick()]
    case Chr(c) => [c]
  }

  function WriteAll(ts: seq<Token>, d: Dialect): string {
    if ts == [] then "" else Write(ts[0], d) + WriteAll(ts[1..], d)
  }

  /** A `#` comment becomes a `--` comment on the way to PostgreSQL. */
  function Carry(t: Token, e: Dialect): seq<Token> {
    if t == Chr('#') && e == Postgres then [Chr('-'), Chr('-')] else [t]
  }

  function CarryAll(ts: seq<Token>, e: Dialect): seq<Token> {
    if ts == [] then [] else Carry(ts[0], e) + CarryAll(ts[1..], e)
  }

  /** The rewriting of a text of dialect `d` for the other one. */
  function Rewrite(s: string, d: Dialect): string {
    WriteAll(CarryAll(Lex(s, d), d.Opposite()), d.Opposite())
  }

  lemma RewriteTurn(s: string, d: Dialect)
    requires s != ""
    ensures var (t, n) := First(s, d);
            Rewrite(s, d) == WriteAll(Carry(t, d.Opposite()), d.Opposite()) + Rewrite(s[n..], d)
  {
    hide First;
    var (t, n) := First(s, d);
    WriteAppend(Carry(t, d.Opposite()), CarryAll(Lex(s[n..], d), d.Opposite()), d.Opposite());
    assert ([t] + Lex(s[n..], d))[1..] == Lex(s[n..], d);
  }

  lemma {:induction false} WriteAppend(a: seq<Token>, b: seq<Token>, d: Dialect)
    ensures WriteAll(a + b, d) == WriteAll(a, d) + WriteAll(b, d)
  {
    if a == [] {
      assert a + b == b;
    } else {
      DropPrefix(a, b, 1);
      WriteAppend(a[1..], b, d);
      Assoc(Write(a[0], d), WriteAll(a[1..], d), WriteAll(b, d));
    }
  }

  lemma CarriedWrites(t: Token, e: Dialect)
    ensures WriteAll(Carry(t, e), e) == if t == Chr('#') && e == Postgres then "--" else Write(t, e)
  {
    assert [t][1..] == [] && Write(t, e) + "" == Write(t, e);
    assert [Chr('-'), Chr('-')][1..] == [Chr('-')] && [Chr('-')][1..] == [];
  }

  // ------------------------------------------------------------------ the loops

  lemma SliceGrows(s: string, i: nat, j: nat, k: nat)
    requires i <= j < k <= |s| && k <= j + 2
    ensures s[i..j] + (if k == j + 1 then [s[j]] else [s[j], s[j + 1]]) == s[i..k]
  {
  }

  /** The string-copying loop both rewriters share. */
  method CopyString(sql: string, i: nat) returns (copied: string, j: nat)
    requires i < |sql| && IsQuote(sql[i])
    ensures j == i + Quoted(sql[i..]) && copied == sql[i..j]
  {
    hide SpanFrom, Quoted;
    var quote := sql[i];
    QuotedFrom(sql, i);
    copied, j := [quote], i + 1;
    while j < |sql|
      invariant i + 1 <= j <= |sql| && copied == sql[i..j]
      invariant SpanFrom(quote, sql, i + 1) == SpanFrom(quote, sql, j)
    {
      var c := sql[j];
      SliceGrows(sql, i, j, j + 1);
      if c == '\\' && j + 1 < |sql| {
        SpanStep(quote, sql, j, j + 2);
        SliceGrows(sql, i, j, j + 2);
        copied, j := copied + [c, sql[j + 1]], j + 2;
        continue;
      }
      if c == quote {
        if j + 1 < |sql| && sql[j + 1] == quote {
          SpanStep(quote, sql, j, j + 2);
          SliceGrows(sql, i, j, j + 2);
          copied, j := copied + [c, c], j + 2;
          continue;
        }
        SpanEnds(quote, sql, j);
        return copied + [c], j + 1;
      }
      SpanStep(quote, sql, j, j + 1);
      copied, j := copied + [c], j + 1;
    }
    SpanEnds(quote, sql, j);
  }

  /** One turn of the identifier loop, seen from what is left at `j`. */
  lemma DecodeTurn(q: char, s: string, j: nat)
    requires j <= |s|
    ensures j == |s| ==> Decode(q, s[j..]) == Decoded("", 0, false)
    ensures j < |s| && s[j] != q ==> Decode(q, s[j..]) == Decode(q, s[j + 1..]).Behind(s[j], 1)
    ensures j + 1 < |s| && s[j] == q == s[j + 1] ==> Decode(q, s[j..]) == Decode(q, s[j + 2..]).Behind(q, 2)
    ensures j < |s| && s[j] == q && !(j + 1 < |s| && s[j + 1] == q) ==> Decode(q, s[j..]) == Decoded("", 1, true)
  {
    var rest := s[j..];
    if j < |s| {
      assert rest[0] == s[j] && (|rest| > 1 ==> rest[1] == s[j + 1]);
      assert rest[1..] == s[j + 1..] && (|rest| > 1 ==> rest[2..] == s[j + 2..]);
    }
  }

  /** The identifier-decoding loop both rewriters share, from just past the opening quote. */
  method ReadIdentifier(sql: string, i: nat, q: char) returns (ident: string, j: nat)
    requires i <= |sql|
    ensures var r := Decode(q, sql[i..]); ident == r.name && j == i + r.used
  {
    hide Decode;
    ident, j := "", i;
    ghost var r := Decode(q, sql[i..]);
    while j < |sql|
      invariant i <= j <= |sql|
      invariant r.name == ident + Decode(q, sql[j..]).name && i + r.used == j + Decode(q, sql[j..]).used
    {
      var c := sql[j];
      DecodeTurn(q, sql, j);
      if c == q {
        if j + 1 < |sql| && sql[j + 1] == q {
          Assoc(ident, [q], Decode(q, sql[j + 2..]).name);
          ident, j := ident + [q], j + 2;
          continue;
        }
        assert ident + "" == ident;
        return ident, j + 1;
      }
      Assoc(ident, [c], Decode(q, sql[j + 1..]).name);
      ident, j := ident + [c], j + 1;
    }
    DecodeTurn(q, sql, j);
    assert ident + "" == ident;
  }

  /** Pushing the next piece keeps the output on the way to the rewriting. */
  lemma Push(out: string, piece: string, sql: string, i: nat, j: nat, d: Dialect)
    requires i < j <= |sql| && First(sql[i..], d).1 == j - i
    requires piece == WriteAll(Carry(First(sql[i..], d).0, d.Opposite()), d.Opposite())
    ensures out + Rewrite(sql[i..], d) == out + piece + Rewrite(sql[j..], d)
  {
    hide First, Rewrite, Carry;
    RewriteTurn(sql[i..], d);
    assert sql[i..][j - i..] == sql[j..];
    Assoc(out, piece, Rewrite(sql[j..], d));
  }

  method RewriteBackticksToDoubleQuotes(sql: string) returns (out: string)
    ensures out == Rewrite(sql, MySql)
  {
    hide Rewrite, Decode, Quoted, WriteAll;
    out := "";
    var i := 0;
    assert sql[0..] == sql && "" + Rewrite(sql, MySql) == Rewrite(sql, MySql);
    while i < |sql|
      invariant i <= |sql|
      invariant out + Rewrite(sql[i..], MySql) == Rewrite(sql, MySql)
    {
      var b := sql[i];
      assert sql[i..][0] == b && sql[i..][1..] == sql[i + 1..];
      CarriedWrites(First(sql[i..], MySql).0, Postgres);
      if b == '\'' || b == '"' {
        var copied, j := CopyString(sql, i);
        assert sql[i..][..j - i] == sql[i..j];
        Push(out, copied, sql, i, j, MySql);
        out, i := out + copied, j;
      } else if b == '`' {
        var ident, j := ReadIdentifier(sql, i + 1, '`');
        Push(out, ['"'] + Double(ident, '"') + ['"'], sql, i, j, MySql);
        out, i := out + (['"'] + Double(ident, '"') + ['"']), j;
      } else if b == '#' {
        Push(out, "--", sql, i, i + 1, MySql);
        out, i := out + "--", i + 1;
      } else {
        Push(out, [b], sql, i, i + 1, MySql);
        out, i := out + [b], i + 1;
      }
    }
    RewriteStarts(sql[i..], MySql);
    assert out + "" == out;
  }

  method RewriteDoubleQuotesToBackticks(sql: string) returns (out: string)
    ensures out == Rewrite(sql, Postgres)
  {
    hide Rewrite, Decode, Quoted, WriteAll;
    out := "";
    var i := 0;
    assert sql[0..] == sql && "" + Rewrite(sql, Postgres) == Rewrite(sql, Postgres);
    while i < |sql|
      invariant i <= |sql|
      invariant out + Rewrite(sql[i..], Postgres) == Rewrite(sql, Postgres)
    {
      var b := sql[i];
      assert sql[i..][0] == b && sql[i..][1..] == sql[i + 1..];
      CarriedWrites(First(sql[i..], Postgres).0, MySql);
      if b == '\'' {
        var copied, j := CopyString(sql, i);
        assert sql[i..][..j - i] == sql[i..j];
        Push(out, copied, sql, i, j, Postgres);
        out, i := out + copied, j;
      } else if b == '"' {
        var ident, j := ReadIdentifier(sql, i + 1, '"');
        Push(out, ['`'] + Double(ident, '`') + ['`'], sql, i, j, Postgres);
        out, i := out + (['`'] + Double(ident, '`') + ['`']), j;
      } else {
        Push(out, [b], sql, i, i + 1, Postgres);
        out, i := out + [b], i + 1;
      }
    }
    RewriteStarts(sql[i..], Postgres);
    assert out + "" == out;
  }

  // -------------------------------------------------------- what a token looks like

  /** A token the dialect can read. */
  predicate Fits(t: Token, e: Dialect) {
    match t
    case Str(raw) => raw != "" && e.Opens(raw[0])
    case Name(_) => true
    case Chr(c) => !e.Opens(c) && c != e.Tick()
  }

  predicate Shuts(raw: string)
    requires raw != ""
  {
    Span(raw[0], raw[1..]) == Some(|raw| - 1)
  }

  /** The text `y` behind the token is not taken for a part of it. */
  predicate Leads(t: Token, e: Dialect, y: string)
    requires Fits(t, e)
  {
    match t
    case Str(raw) =>
      if Shuts(raw) then y == "" || y[0] != raw[0]
      else y == "" && Span(raw[0], raw[1..]).None?
    case Name(_) => y == "" || y[0] != e.Tick()
    case Chr(_) => true
  }

  lemma {:induction false} SpanStopsShort(q: char, s: string, n: nat)
    requires q != '\\' && Span(q, s) == Some(n) && n < |s|
    ensures s[n] != q
    decreases |s|
  {
    if s[0] == '\\' {
      SpanStopsShort(q, s[2..], n - 2);
    } else if s[0] != q {
      SpanStopsShort(q, s[1..], n - 1);
    } else if s[1] == q {
      SpanStopsShort(q, s[2..], n - 2);
    }
  }

  /** A string token is sealed and not followed by its own quote, or it is all that is left. */
  lemma StringToken(s: string)
    requires s != "" && IsQuote(s[0])
    ensures var n := Quoted(s);
            if Shuts(s[..n]) then n < |s| ==> s[n] != s[0]
            else n == |s| && s[..n] == s && Span(s[0], s[1..]).None?
  {
    var n := Quoted(s);
    match Span(s[0], s[1..])
    case Some(k) =>
      SpanCut(s[0], s[1..], k);
      assert s[..n][1..] == s[1..][..k];
      if n < |s| {
        SpanStopsShort(s[0], s[1..], k);
      }
    case None =>
      assert s[..n] == s;
  }

  lemma DoubleCons(c: char, name: string, q: char)
    ensures Double([c] + name, q) == (if c == q then [q, q] else [c]) + Double(name, q)
  {
    assert ([c] + name)[1..] == name;
  }

  /** A decoded identifier is what doubling its quotes gives back. */
  lemma {:induction false} DecodedText(q: char, s: string)
    ensures var r := Decode(q, s);
            if r.closed then Double(r.name, q) + [q] == s[..r.used] && (r.used < |s| ==> s[r.used] != q)
            else r.used == |s| && Double(r.name, q) == s
  {
    if s != "" {
      if s[0] != q {
        DecodedText(q, s[1..]);
        DoubleCons(s[0], Decode(q, s[1..]).name, q);
        DecodedMore(q, s, 1, [s[0]]);
      } else if |s| > 1 && s[1] == q {
        DecodedText(q, s[2..]);
        DoubleCons(q, Decode(q, s[2..]).name, q);
        DecodedMore(q, s, 2, [q, q]);
      }
    }
  }

  lemma DecodedMore(q: char, s: string, k: nat, head: string)
    requires k <= |s| && s[..k] == head
    ensures var r := Decode(q, s[k..]);
            && head + Double(r.name, q) + [q] == head + (Double(r.name, q) + [q])
            && head + s[k..][..r.used] == s[..k + r.used] && head + s[k..] == s
            && (r.used < |s[k..]| ==> s[k..][r.used] == s[k + r.used])
  {
    hide Decode, Double;
  }

  /** Writing an identifier and decoding it again. */
  lemma {:induction false} DecodeWritten(q: char, name: string, y: string)
    requires y == "" || y[0] != q
    ensures Decode(q, Double(name, q) + ([q] + y)) == Decoded(name, |Double(name, q)| + 1, true)
  {
    var tail := [q] + y;
    if name == "" {
      assert Double(name, q) + tail == tail;
    } else {
      var head := if name[0] == q then [q, q] else [name[0]];
      DecodeWritten(q, name[1..], y);
      Assoc(head, Double(name[1..], q), tail);
      DecodeHead(q, head, Double(name[1..], q) + tail);
      assert [name[0]] + name[1..] == name;
    }
  }

  lemma DecodeHead(q: char, head: string, tail: string)
    requires head == [q, q] || (|head| == 1 && head[0] != q)
    ensures Decode(q, head + tail) == Decode(q, tail).Behind(head[0], |head|)
  {
    assert (head + tail)[|head|..] == tail;
  }

  /** And when another quote follows, the identifier goes on behind it. */
  lemma {:induction false} DecodeMerged(q: char, name: string, z: string) returns (m: string)
    ensures Decode(q, Double(name, q) + ([q, q] + z)).name == name + [q] + m
  {
    var tail := [q, q] + z;
    if name == "" {
      assert Double(name, q) + tail == tail;
      DecodeHead(q, [q, q], z);
      m := Decode(q, z).name;
      assert "" + [q] + m == [q] + m;
    } else {
      var head := if name[0] == q then [q, q] else [name[0]];
      m := DecodeMerged(q, name[1..], z);
      Assoc(head, Double(name[1..], q), tail);
      DecodeHead(q, head, Double(name[1..], q) + tail);
      assert [name[0]] + (name[1..] + [q] + m) == name + [q] + m;
    }
  }

  lemma FirstStr(raw: string, y: string, e: Dialect)
    requires Fits(Str(raw), e) && Leads(Str(raw), e, y)
    ensures First(raw + y, e) == (Str(raw), |raw|)
  {
    assert (raw + y)[0] == raw[0] && (raw + y)[..|raw|] == raw;
    if Shuts(raw) {
      DropPrefix(raw, y, 1);
      SpanExtends(raw[0], raw[1..], y);
    } else {
      assert raw + y == raw;
    }
  }

  lemma FirstName(name: string, y: string, e: Dialect)
    requires y == "" || y[0] != e.Tick()
    ensures First(Write(Name(name), e) + y, e) == (Name(name), |Write(Name(name), e)|)
  {
    hide Decode, Double;
    var q := e.Tick();
    var s := Write(Name(name), e) + y;
    DecodeWritten(q, name, y);
    assert s == [q] + (Double(name, q) + ([q] + y));
    assert s[0] == q && s[1..] == Double(name, q) + ([q] + y);
  }

  /** A dialect reads a written token as that token, whatever it leads. */
  lemma FirstWritten(t: Token, y: string, e: Dialect)
    requires Fits(t, e) && Leads(t, e, y)
    ensures Write(t, e) != "" && First(Write(t, e) + y, e) == (t, |Write(t, e)|)
  {
    match t
    case Str(raw) => FirstStr(raw, y, e);
    case Name(name) => FirstName(name, y, e);
    case Chr(c) => assert ([c] + y)[0] == c;
  }

  // ----------------------------------------------------------------- the head of a text

  /** A token of the text begins with the other dialect's identifier quote. */
  predicate Strays(s: string, d: Dialect) {
    s != "" && (s[0] == d.Opposite().Tick() || Strays(s[First(s, d).1..], d))
  }

  /** The first character of a rewriting. */
  lemma RewriteStarts(s: string, d: Dialect)
    ensures s == "" <==> Rewrite(s, d) == ""
    ensures s != "" ==>
              Rewrite(s, d)[0] == if s[0] == d.Tick() then d.Opposite().Tick()
                                  else if s[0] == '#' && d == MySql then '-' else s[0]
  {
    if s != "" {
      hide Quoted, Decode, Double;
      RewriteTurn(s, d);
      CarriedWrites(First(s, d).0, d.Opposite());
    }
  }

  /** The token at the head of a text: it fits its dialect, and the other one unless it is stray. */
  lemma HeadIs(s: string, d: Dialect)
    requires s != ""
    ensures var (t, n) := First(s, d);
            var e := d.Opposite();
            && Fits(t, d) && (t == Chr('#') ==> s[0] == '#')
            && (if s[0] != e.Tick() then Fits(t, e)
                else !Fits(t, e) && Carry(t, e) == [t] && !t.Name? && Write(t, e)[0] == s[0])
            && (s[0] != d.Tick() ==> !t.Name? && Write(t, d) == s[..n])
  {
    hide Quoted, Decode;
  }

  /** And what its rewriting is followed by is not taken for a part of it. */
  lemma HeadLeads(s: string, d: Dialect)
    requires s != "" && s[0] != d.Opposite().Tick()
    requires var (t, n) := First(s, d); t.Name? && n < |s| ==> s[n] != d.Opposite().Tick()
    ensures var (t, n) := First(s, d); Fits(t, d.Opposite()) && Leads(t, d.Opposite(), Rewrite(s[n..], d))
  {
    HeadIs(s, d);
    var (t, n) := First(s, d);
    RewriteStarts(s[n..], d);
    assert n < |s| ==> s[n..][0] == s[n];
    hide Rewrite, Double;
    if t.Str? {
      StringToken(s);
    } else if t.Name? {
      NameEnds(s, d);
    }
  }

  lemma NameEnds(s: string, d: Dialect)
    requires s != "" && s[0] == d.Tick()
    ensures var (t, n) := First(s, d);
            && t.Name? && (n < |s| ==> s[n] != d.Tick())
            && (if Decode(d.Tick(), s[1..]).closed then Write(t, d) == s[..n] else n == |s| && |Write(t, d)| == |s| + 1)
  {
    hide Decode, Double;
    var q := d.Tick();
    var r := Decode(q, s[1..]);
    DecodedText(q, s[1..]);
    assert r.used < |s[1..]| ==> s[1..][r.used] == s[1 + r.used];
    if r.closed {
      assert [q] + s[1..][..r.used] == s[..1 + r.used];
      Assoc([q], Double(r.name, q), [q]);
    }
  }

  // ------------------------------------------------------------------ there and back

  /** Identifiers close, and outside them and strings there is no `#` and no stray quote. */
  predicate Tidy(s: string, d: Dialect) {
    s != "" ==>
      && s[0] != d.Opposite().Tick() && s[0] != '#'
      && (s[0] == d.Tick() ==> Decode(d.Tick(), s[1..]).closed)
      && Tidy(s[First(s, d).1..], d)
  }

  /** A stray quote comes back as the dialect's own, a `#` as a dash. */
  lemma HeadComesBack(s: string, d: Dialect)
    requires s != "" && (s[0] == d.Opposite().Tick() || s[0] == '#')
    ensures Rewrite(Rewrite(s, d), d.Opposite()) != s
  {
    hide Rewrite, First;
    RewriteStarts(s, d);
    RewriteStarts(Rewrite(s, d), d.Opposite());
  }

  lemma SwallowText(q: char, mid: string, z: string)
    ensures [q] + mid + [q] + ([q] + z) == [q] + (mid + ([q, q] + z))
    ensures ([q] + (mid + ([q, q] + z)))[1..] == mid + ([q, q] + z)
  {
  }

  /** The rewriting of an identifier that a stray quote follows. */
  lemma SwallowedForm(s: string, d: Dialect) returns (z: string)
    requires s != "" && s[0] == d.Tick()
    requires var n := First(s, d).1; n < |s| && s[n] == d.Opposite().Tick()
    ensures First(s, d).0.Name?
    ensures var q := d.Opposite().Tick();
            Rewrite(s, d) == [q] + (Double(First(s, d).0.name, q) + ([q, q] + z))
  {
    hide Decode, Double, Rewrite;
    var e, n := d.Opposite(), First(s, d).1;
    RewriteTurn(s, d);
    CarriedWrites(First(s, d).0, e);
    RewriteStarts(s[n..], d);
    assert s[n..][0] == s[n];
    z := Rewrite(s[n..], d)[1..];
    assert Rewrite(s[n..], d) == [e.Tick()] + z;
    SwallowText(e.Tick(), Double(First(s, d).0.name, e.Tick()), z);
  }

  /** An identifier that is followed by a stray quote swallows it. */
  lemma NameSwallows(s: string, d: Dialect)
    requires s != "" && s[0] == d.Tick()
    requires var n := First(s, d).1; n < |s| && s[n] == d.Opposite().Tick()
    ensures Rewrite(Rewrite(s, d), d.Opposite()) != s
  {
    NameEnds(s, d);
    var z := SwallowedForm(s, d);
    hide Decode, Double, Rewrite, First;
    var q := d.Opposite().Tick();
    var (t, n) := First(s, d);
    SwallowText(q, Double(t.name, q), z);
    var m := DecodeMerged(q, t.name, z);
    MergedComesBack(Rewrite(s, d), d.Opposite(), t.name, m);
    var k := 1 + |Double(t.name, d.Tick())|;
    assert s[..n][k] == s[k] && Write(t, d)[k] == d.Tick();
  }

  lemma MergedComesBack(x: string, e: Dialect, name: string, m: string)
    requires x != "" && x[0] == e.Tick() && Decode(e.Tick(), x[1..]).name == name + [e.Tick()] + m
    ensures var k, back := 1 + |Double(name, e.Opposite().Tick())|, Rewrite(x, e);
            k < |back| && back[k] == e.Tick()
  {
    hide Decode, Double, Rewrite;
    var q := e.Opposite().Tick();
    RewriteTurn(x, e);
    CarriedWrites(First(x, e).0, e.Opposite());
    DoubleAppend(name, [e.Tick()] + m, q);
    Assoc(name, [e.Tick()], m);
    DoubleCons(e.Tick(), m, q);
  }

  /** A token that is kept comes back as itself, and the rest after it. */
  lemma TokenComesBack(s: string, d: Dialect)
    requires s != "" && s[0] != d.Opposite().Tick() && s[0] != '#'
    requires var (t, n) := First(s, d); t.Name? && n < |s| ==> s[n] != d.Opposite().Tick()
    ensures var (t, n) := First(s, d);
            Rewrite(Rewrite(s, d), d.Opposite()) == Write(t, d) + Rewrite(Rewrite(s[n..], d), d.Opposite())
  {
    var e := d.Opposite();
    HeadLeads(s, d);
    hide First, Fits, Leads, Rewrite, Write;
    var (t, n) := First(s, d);
    var y := Rewrite(s[n..], d);
    HeadIs(s, d);
    RewriteTurn(s, d);
    CarriedWrites(t, e);
    FirstWritten(t, y, e);
    RewriteTurn(Write(t, e) + y, e);
    CarriedWrites(t, d);
    assert (Write(t, e) + y)[|Write(t, e)|..] == y;
  }

  /** Going to the other dialect and back is the identity exactly on the tidy texts. */
  lemma {:induction false} BackAgainIff(s: string, d: Dialect)
    ensures Rewrite(Rewrite(s, d), d.Opposite()) == s <==> Tidy(s, d)
    decreases |s|
  {
    hide First, Rewrite, Write, Decode;
    if s == "" {
      RewriteStarts(s, d);
      RewriteStarts(s, d.Opposite());
    } else if s[0] == d.Opposite().Tick() || s[0] == '#' {
      HeadComesBack(s, d);
    } else {
      var (t, n) := First(s, d);
      var rest := s[n..];
      assert n < |s| ==> rest[0] == s[n];
      if s[0] == d.Tick() { NameEnds(s, d); } else { HeadIs(s, d); }
      if t.Name? && n < |s| && s[n] == d.Opposite().Tick() {
        NameSwallows(s, d);
      } else {
        TokenComesBack(s, d);
        BackAgainIff(rest, d);
        SameFront(Write(t, d), Rewrite(Rewrite(rest, d), d.Opposite()), s, n);
      }
    }
  }

  /** Behind the same front two texts are equal exactly when their rests are. */
  lemma SameFront(head: string, tail: string, s: string, n: nat)
    requires n <= |s|
    ensures head == s[..n] ==> (head + tail == s <==> tail == s[n..])
    ensures |head| > |s| ==> head + tail != s
  {
    if head == s[..n] {
      assert s == s[..n] + s[n..];
      assert (head + tail)[n..] == tail;
    }
  }
}
