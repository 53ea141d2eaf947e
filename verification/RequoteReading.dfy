/**
  What each dialect reads in a text before and after the identifier rewriters of
  src-tauri/src/sql_translate.rs: strings by value, identifiers by name, and single
  characters. MySQL reads backslash escapes in its strings, PostgreSQL's standard
  strings have none; the rewriters copy every string as it stands.
*/
module RequoteReading {
  import opened Text
  import opened DdlScan
  import opened Requote
  import DumpWriter

  // --------------------------------------------------------------- reading a string

  /** A string from just past its opening quote: the value, the bytes read, whether it closes. */
  datatype Content = Content(value: string, used: nat, closed: bool) {
    function Behind(front: string, k: nat): Content {
      Content(front + value, used + k, closed)
    }
  }

  /** MySQL's reading. */
  function Escaped(q: char, s: string): (r: Content)
    ensures r.used <= |s|
  {
    if s == "" then Content("", 0, false)
    else if s[0] == '\\' && |s| > 1 then Escaped(q, s[2..]).Behind(DumpWriter.Unescaped(s[1]), 2)
    else if s[0] == q then
      if |s| > 1 && s[1] == q then Escaped(q, s[2..]).Behind([q], 2) else Content("", 1, true)
    else Escaped(q, s[1..]).Behind([s[0]], 1)
  }

  /** The reading of a standard string. */
  function Standard(s: string): (r: Content)
    ensures r.used <= |s|
  {
    if s == "" then Content("", 0, false)
    else if s[0] == '\'' then
      if |s| > 1 && s[1] == '\'' then Standard(s[2..]).Behind("'", 2) else Content("", 1, true)
    else Standard(s[1..]).Behind([s[0]], 1)
  }

  /** One turn of MySQL's reading. */
  lemma EscapedTurn(q: char, s: string)
    requires q != '\\' && s != ""
    ensures s[0] == '\\' && |s| > 1 ==> Escaped(q, s) == Escaped(q, s[2..]).Behind(DumpWriter.Unescaped(s[1]), 2)
    ensures s[0] == q && |s| > 1 && s[1] == q ==> Escaped(q, s) == Escaped(q, s[2..]).Behind([q], 2)
    ensures s[0] == q && !(|s| > 1 && s[1] == q) ==> Escaped(q, s) == Content("", 1, true)
    ensures s[0] != q && !(s[0] == '\\' && |s| > 1) ==> Escaped(q, s) == Escaped(q, s[1..]).Behind([s[0]], 1)
  {
    hide DumpWriter.Unescaped;
  }

  /** One turn of the standard reading. */
  lemma StandardTurn(s: string)
    requires s != ""
    ensures s[0] == '\'' && |s| > 1 && s[1] == '\'' ==> Standard(s) == Standard(s[2..]).Behind("'", 2)
    ensures s[0] == '\'' && !(|s| > 1 && s[1] == '\'') ==> Standard(s) == Content("", 1, true)
    ensures s[0] != '\'' ==> Standard(s) == Standard(s[1..]).Behind([s[0]], 1)
  {
  }

  lemma UnescapedIs(c: char)
    ensures var v := DumpWriter.Unescaped(c);
            && (c == '\\' ==> v == "\\") && (c == '%' || c == '_' ==> v == ['\\', c])
            && (c != '\\' && c != '%' && c != '_' ==> |v| == 1 && v[0] != '\\')
  {
  }

  lemma Dropped(s: string, k: nat, n: nat)
    requires k + n <= |s|
    ensures s[k..][n..] == s[k + n..]
  {
  }

  /** For strings that close this is the reader that printed literals are checked with. */
  lemma {:induction false} EscapedIsRead(s: string)
    ensures var r := Escaped('\'', s);
            DumpWriter.ReadString(s) == if r.closed then Some((r.value, s[r.used..])) else None
    decreases |s|
  {
    if s != "" {
      EscapedTurn('\'', s);
      hide Escaped, DumpWriter.Unescaped;
      var k := if |s| > 1 && (s[0] == '\\' || (s[0] == '\'' && s[1] == '\'')) then 2 else 1;
      EscapedIsRead(s[k..]);
      Dropped(s, k, Escaped('\'', s[k..]).used);
      if s == "\\" {
        assert s[1..] == "" && DumpWriter.ReadString("") == None;
      }
    }
  }

  /** And so is the standard one. */
  lemma {:induction false} StandardIsRead(s: string)
    ensures var r := Standard(s);
            DumpWriter.ReadStandard(s) == if r.closed then Some((r.value, s[r.used..])) else None
    decreases |s|
  {
    if s != "" {
      StandardTurn(s);
      hide Standard;
      var k := if |s| > 1 && s[0] == '\'' && s[1] == '\'' then 2 else 1;
      StandardIsRead(s[k..]);
      Dropped(s, k, Standard(s[k..]).used);
    }
  }

  /** MySQL's string ends where the rewriters see it end. */
  lemma {:induction false} EscapedEnds(q: char, s: string)
    requires q != '\\'
    ensures match Span(q, s)
            case Some(n) => Escaped(q, s).closed && Escaped(q, s).used == n
            case None => !Escaped(q, s).closed && Escaped(q, s).used == |s|
    decreases |s|
  {
    if s != "" {
      if s[0] == '\\' && |s| > 1 {
        EscapedEnds(q, s[2..]);
      } else if s[0] == q {
        if |s| > 1 && s[1] == q {
          EscapedEnds(q, s[2..]);
        }
      } else {
        EscapedEnds(q, s[1..]);
      }
    }
  }

  /** A string that closes is the same in front of anything but its own quote. */
  lemma {:induction false} EscapedExtends(q: char, s: string, y: string)
    requires q != '\\' && Escaped(q, s).closed && (y == "" || y[0] != q)
    ensures Escaped(q, s + y) == Escaped(q, s)
    decreases |s|
  {
    var all := s + y;
    assert all[0] == s[0] && (|s| > 1 ==> all[1] == s[1]);
    if s[0] == '\\' && |s| > 1 {
      DropPrefix(s, y, 2);
      EscapedExtends(q, s[2..], y);
    } else if s[0] == q {
      if |s| > 1 && s[1] == q {
        DropPrefix(s, y, 2);
        EscapedExtends(q, s[2..], y);
      }
    } else {
      assert |s| > 1;
      DropPrefix(s, y, 1);
      EscapedExtends(q, s[1..], y);
    }
  }

  lemma {:induction false} EscapedCut(q: char, s: string)
    requires q != '\\' && Escaped(q, s).closed
    ensures var n := Escaped(q, s).used;
            Escaped(q, s[..n]) == Escaped(q, s) && (n < |s| ==> s[n] != q)
    decreases |s|
  {
    var n := Escaped(q, s).used;
    var t := s[..n];
    EscapedTurn(q, s);
    assert n > 0 && t[0] == s[0] && (n > 1 ==> t[1] == s[1]);
    EscapedTurn(q, t);
    hide Escaped, DumpWriter.Unescaped;
    if s[0] == '\\' && |s| > 1 {
      EscapedCut(q, s[2..]);
      assert t[2..] == s[2..][..n - 2];
    } else if s[0] == q {
      if |s| > 1 && s[1] == q {
        EscapedCut(q, s[2..]);
        assert t[2..] == s[2..][..n - 2];
      }
    } else {
      EscapedCut(q, s[1..]);
      assert t[1..] == s[1..][..n - 1];
    }
  }

  /** What follows a string matters only by its first character. */
  lemma EscapedStays(q: char, body: string, rest: string, y: string)
    requires q != '\\' && Escaped(q, body + rest).used == |body|
    requires (rest == "") == (y == "") && (rest != "" ==> (rest[0] == q <==> y[0] == q))
    ensures Escaped(q, body + y) == Escaped(q, body + rest)
  {
    var s := body + rest;
    EscapedEnds(q, s);
    if Escaped(q, s).closed {
      EscapedCut(q, s);
      assert s[..|body|] == body && (rest != "" ==> s[|body|] == rest[0]);
      EscapedExtends(q, body, y);
    } else {
      assert rest == "" && body + y == body + rest;
    }
  }

  // ----------------------------------------------------------- when the readings agree

  /** Every backslash stands in front of `%` or `_`, where MySQL keeps it. */
  predicate Inert(raw: string) {
    forall i :: 0 <= i < |raw| - 1 && raw[i] == '\\' ==> raw[i + 1] == '%' || raw[i + 1] == '_'
  }

  lemma InertTurn(s: string, k: nat)
    requires 0 < k <= |s| && k <= 2
    requires k == 1 ==> s[0] != '\\'
    requires k == 2 ==> (s[0] == '\\' <==> s[1] == '%' || s[1] == '_') && s[1] != '\\'
    ensures Inert(s) <==> Inert(s[k..])
  {
    forall i | 0 <= i < |s| - 1 && Inert(s[k..]) && s[i] == '\\' ensures s[i + 1] == '%' || s[i + 1] == '_' {
      if i >= k {
        assert s[k..][i - k] == s[i] && s[k..][i - k + 1] == s[i + 1];
      }
    }
    forall i | 0 <= i < |s[k..]| - 1 && Inert(s) && s[k..][i] == '\\'
      ensures s[k..][i + 1] == '%' || s[k..][i + 1] == '_'
    {
      assert s[k + i] == '\\' && s[k + i + 1] == s[k..][i + 1];
    }
  }

  lemma InertShort(s: string)
    requires |s| <= 1
    ensures Inert(s)
  {
  }

  function Backslashes(k: nat): string {
    if k == 0 then "" else "\\" + Backslashes(k - 1)
  }

  lemma {:induction false} BackslashesSnoc(k: nat)
    ensures Backslashes(k) + "\\" == Backslashes(k + 1)
  {
    if k == 0 {
      assert Backslashes(0) + "\\" == "\\" == "\\" + "" && Backslashes(1) == "\\" + Backslashes(0);
    } else {
      BackslashesSnoc(k - 1);
      Assoc("\\", Backslashes(k - 1), "\\");
    }
  }

  /** An escape other than a backslash's own does not keep up with a backslash and more. */
  lemma PairAhead(s: string, v: string)
    requires s != "" && s[0] == '\\' && (|s| > 1 ==> s[1] != '\\')
    requires |v| > 1 && v[0] == '\\' && v[1] == '\\'
    ensures Escaped('\'', s).value != v
  {
    EscapedTurn('\'', s);
    if |s| == 1 {
      assert s[1..] == "" && Escaped('\'', "").value == "";
    } else {
      UnescapedIs(s[1]);
    }
    hide Escaped, DumpWriter.Unescaped;
  }

  lemma DoubleValues(s: string)
    requires |s| > 1 && s[0] == '\\' && s[1] == '\\'
    ensures Escaped('\'', s).value == "\\" + Escaped('\'', s[2..]).value
    ensures Standard(s).value == "\\" + ("\\" + Standard(s[2..]).value)
  {
    EscapedTurn('\'', s);
    StandardTurn(s);
    StandardTurn(s[1..]);
    UnescapedIs('\\');
    hide Escaped, Standard, DumpWriter.Unescaped;
    assert s[1..][0] == '\\' && s[1..][1..] == s[2..];
  }

  /** Once the standard reading is ahead by a backslash, MySQL's never catches up. */
  lemma {:induction false} StaysAhead(s: string, k: nat)
    requires k > 0
    ensures Escaped('\'', s).value != Backslashes(k) + Standard(s).value
    decreases |s|
  {
    if s != "" {
      EscapedTurn('\'', s);
      StandardTurn(s);
    }
    assert Backslashes(k)[0] == '\\';
    if s == "" {
      assert Escaped('\'', s).value == "";
    } else if s[0] == '\\' {
      hide Escaped, Standard, DumpWriter.Unescaped;
      assert Standard(s).value == "\\" + Standard(s[1..]).value;
      AheadTwo(k, Standard(s[1..]).value);
      if |s| > 1 && s[1] == '\\' {
        StaysAhead(s[2..], k + 1);
        DoubleValues(s);
        hide Backslashes;
        AheadShift(k, Standard(s[2..]).value);
        assert ("\\" + Escaped('\'', s[2..]).value)[1..] == Escaped('\'', s[2..]).value;
      } else {
        PairAhead(s, Backslashes(k) + Standard(s).value);
      }
    } else {
      hide Escaped, Standard;
      assert Escaped('\'', s).value == "" || Escaped('\'', s).value[0] == s[0];
    }
  }

  lemma AheadTwo(k: nat, v: string)
    requires k > 0
    ensures var a := Backslashes(k) + ("\\" + v); |a| > 1 && a[0] == '\\' && a[1] == '\\'
  {
    assert Backslashes(k) == "\\" + Backslashes(k - 1);
    if k > 1 {
      assert Backslashes(k - 1) == "\\" + Backslashes(k - 2);
    }
  }

  lemma AheadShift(k: nat, v: string)
    requires k > 0
    ensures (Backslashes(k) + ("\\" + ("\\" + v)))[1..] == Backslashes(k + 1) + v
  {
    BackslashesSnoc(k);
    BackslashesSnoc(k - 1);
    assert Backslashes(k) == "\\" + Backslashes(k - 1);
    var b := Backslashes(k - 1);
    assert "\\" + b + ("\\" + ("\\" + v)) == "\\" + (b + "\\" + "\\" + v);
  }

  lemma OneAhead(v: string)
    ensures Backslashes(1) + v == "\\" + v
  {
    assert Backslashes(1) == "\\" + Backslashes(0) == "\\";
  }

  /** The two readings give a string the same value exactly when its backslashes are inert; then they agree in all. */
  lemma {:induction false} SameValueIff(s: string)
    ensures var r := Escaped('\'', s);
            && (r.value == Standard(s).value <==> Inert(s[..r.used]))
            && (Inert(s[..r.used]) ==> r == Standard(s))
    decreases |s|
  {
    var r := Escaped('\'', s);
    var raw := s[..r.used];
    if s == "" {
      return;
    }
    EscapedTurn('\'', s);
    StandardTurn(s);
    hide Escaped, Standard, Inert, DumpWriter.Unescaped;
    if s[0] == '\\' && |s| > 1 {
      ActivePair(s);
    } else if s[0] == '\'' {
      if |s| > 1 && s[1] == '\'' {
        SameValueIff(s[2..]);
        assert raw[2..] == s[2..][..r.used - 2];
        InertTurn(raw, 2);
        SameFronts("'", Escaped('\'', s[2..]).value, Standard(s[2..]).value);
      } else {
        InertShort(raw);
      }
    } else if s[0] == '\\' {
      SameValueIff(s[1..]);
      assert s[1..] == "";
      InertShort(raw);
      InertShort(s[1..][..r.used - 1]);
      SameFronts([s[0]], Escaped('\'', s[1..]).value, Standard(s[1..]).value);
    } else {
      SameValueIff(s[1..]);
      assert raw[1..] == s[1..][..r.used - 1];
      InertTurn(raw, 1);
      SameFronts([s[0]], Escaped('\'', s[1..]).value, Standard(s[1..]).value);
    }
  }

  lemma SameFronts(front: string, a: string, b: string)
    ensures front + a == front + b <==> a == b
  {
    assert (front + a)[|front|..] == a && (front + b)[|front|..] == b;
  }

  lemma {:induction false} ActivePair(s: string)
    requires |s| > 1 && s[0] == '\\'
    ensures var r := Escaped('\'', s);
            && (r.value == Standard(s).value <==> Inert(s[..r.used]))
            && (Inert(s[..r.used]) ==> r == Standard(s))
    decreases |s|, 0
  {
    var r, more := Escaped('\'', s), s[2..];
    var raw := s[..r.used];
    var inner := Escaped('\'', more);
    EscapedTurn('\'', s);
    StandardTurn(s);
    StandardTurn(s[1..]);
    UnescapedIs(s[1]);
    hide Escaped, Standard, DumpWriter.Unescaped;
    assert raw[0] == '\\' && raw[1] == s[1];
    assert s[1..][0] == s[1] && s[1..][1..] == more;
    if s[1] == '%' || s[1] == '_' {
      SameValueIff(more);
      assert raw[2..] == more[..r.used - 2];
      InertTurn(raw, 2);
      var pair := ['\\', s[1]];
      assert Standard(s).value == "\\" + ([s[1]] + Standard(more).value) == pair + Standard(more).value;
      SameFronts(pair, inner.value, Standard(more).value);
    } else {
      assert !Inert(raw);
      if s[1] == '\\' {
        StaysAhead(more, 1);
        OneAhead(Standard(more).value);
        assert Standard(s).value == "\\" + ("\\" + Standard(more).value);
        SameFronts("\\", inner.value, "\\" + Standard(more).value);
      } else {
        assert r.value[0] != '\\';
        assert Standard(s).value[0] == '\\';
      }
    }
  }

  // ------------------------------------------------------------ what a dialect reads

  datatype Sense = Text(open: char, value: string, closed: bool) | Named(name: string) | Sign(c: char)

  function StringAt(s: string, d: Dialect): Content
    requires s != ""
  {
    if d == MySql then Escaped(s[0], s[1..]) else Standard(s[1..])
  }

  /** What a dialect reads at the head of a text, and the bytes it takes. */
  function SenseAt(s: string, d: Dialect): (r: (Sense, nat))
    requires s != ""
    ensures 1 <= r.1 <= |s|
  {
    if d.Opens(s[0]) then
      var r := StringAt(s, d);
      (Text(s[0], r.value, r.closed), 1 + r.used)
    else if s[0] == d.Tick() then
      var r := Decode(d.Tick(), s[1..]);
      (Named(r.name), 1 + r.used)
    else (Sign(s[0]), 1)
  }

  function Reading(s: string, d: Dialect): seq<Sense> {
    if s == "" then []
    else
      var (t, n) := SenseAt(s, d);
      [t] + Reading(s[n..], d)
  }

  /** The same in the other dialect; a `#` comment is a `--` comment for PostgreSQL. */
  function Turned(t: Sense, e: Dialect): seq<Sense> {
    if t == Sign('#') && e == Postgres then [Sign('-'), Sign('-')] else [t]
  }

  function TurnedAll(ts: seq<Sense>, e: Dialect): seq<Sense> {
    if ts == [] then [] else Turned(ts[0], e) + TurnedAll(ts[1..], e)
  }

  lemma ReadTurn(s: string, d: Dialect, e: Dialect)
    requires s != ""
    ensures var (t, n) := SenseAt(s, d);
            && Reading(s, d) == [t] + Reading(s[n..], d)
            && TurnedAll(Reading(s, d), e) == Turned(t, e) + TurnedAll(Reading(s[n..], d), e)
  {
    hide SenseAt;
    var (t, n) := SenseAt(s, d);
    assert ([t] + Reading(s[n..], d))[1..] == Reading(s[n..], d);
  }

  /** No string has a backslash that MySQL reads as an escape. */
  predicate NoEscapes(s: string, d: Dialect) {
    s != "" ==>
      && (s[0] == '\'' ==> Inert(s[1..Quoted(s)]))
      && NoEscapes(s[First(s, d).1..], d)
  }

  // ----------------------------------------------------------------- head by head

  /** The rewriting of a text that begins with a string: the string as it stands, then the rest, begun alike. */
  lemma StringRewritten(s: string, d: Dialect)
    requires s != "" && s[0] == '\''
    ensures var n := Quoted(s);
            var y := Rewrite(s[n..], d);
            && First(s, d) == (Str(s[..n]), n) && Rewrite(s, d) == s[..n] + y
            && (s[n..] == "") == (y == "") && (s[n..] != "" ==> (s[n..][0] == '\'' <==> y[0] == '\''))
  {
    var n := Quoted(s);
    hide Rewrite, Quoted;
    assert First(s, d) == (Str(s[..n]), n);
    hide First;
    RewriteTurn(s, d);
    CarriedWrites(Str(s[..n]), d.Opposite());
    RewriteStarts(s[n..], d);
  }

  lemma HeadSlices(s: string, n: nat, y: string)
    requires 1 <= n <= |s|
    ensures s[1..] == s[1..n] + s[n..] && |s[1..n]| == n - 1
    ensures (s[..n] + y)[0] == s[0] && (s[..n] + y)[1..] == s[1..n] + y && (s[..n] + y)[n..] == y
  {
  }

  /** Hence MySQL reads the same string in the text and in its rewriting. */
  lemma StringCopied(s: string, d: Dialect)
    requires s != "" && s[0] == '\''
    ensures var n := Quoted(s);
            var y := Rewrite(s[n..], d);
            && First(s, d).1 == n && s[1..] == s[1..n] + s[n..] && Escaped('\'', s[1..]).used == n - 1
            && Rewrite(s, d) != "" && Rewrite(s, d)[0] == '\'' && Rewrite(s, d)[1..] == s[1..n] + y
            && Rewrite(s, d)[n..] == y && Escaped('\'', s[1..n] + y) == Escaped('\'', s[1..])
  {
    var n := Quoted(s);
    EscapedEnds('\'', s[1..]);
    StringRewritten(s, d);
    hide *;
    var y := Rewrite(s[n..], d);
    HeadSlices(s, n, y);
    EscapedStays('\'', s[1..n], s[n..], y);
  }

  /** It is read alike on both sides exactly when its backslashes are inert. */
  lemma StringRead(s: string, d: Dialect)
    requires s != "" && s[0] == '\''
    ensures var n, out, e := Quoted(s), Rewrite(s, d), d.Opposite();
            && out != "" && First(s, d).1 == n && SenseAt(s, d).0.Text?
            && (SenseAt(out, e).0 == SenseAt(s, d).0 ==> Inert(s[1..n]))
            && (Inert(s[1..n]) ==> SenseAt(out, e) == SenseAt(s, d) && SenseAt(s, d).1 == n
                                   && out[n..] == Rewrite(s[n..], d))
  {
    StringCopied(s, d);
    var n, out := Quoted(s), Rewrite(s, d);
    var y := Rewrite(s[n..], d);
    hide Rewrite, Quoted, Escaped, Standard, Inert, First;
    SameValueIff(s[1..]);
    SameValueIff(out[1..]);
    assert s[1..][..n - 1] == s[1..n] && out[1..][..n - 1] == s[1..n];
  }

  /** The other dialect's identifier quote at the head is an identifier to it, and none here. */
  lemma StrayRead(s: string, d: Dialect)
    requires s != "" && s[0] == d.Opposite().Tick()
    ensures Rewrite(s, d) != "" && SenseAt(Rewrite(s, d), d.Opposite()).0.Named?
    ensures !SenseAt(s, d).0.Named?
  {
    RewriteStarts(s, d);
    hide Rewrite, Decode, Escaped, Standard;
  }

  /** An identifier at the head keeps its name exactly when no stray quote follows it. */
  lemma NameRead(s: string, d: Dialect)
    requires s != "" && s[0] == d.Tick()
    ensures var (t, n) := First(s, d);
            var e, out := d.Opposite(), Rewrite(s, d);
            && out != "" && SenseAt(s, d) == (Named(t.name), n) && t.Name?
            && (if n < |s| && s[n] == e.Tick() then SenseAt(out, e).0 != Named(t.name)
                else SenseAt(out, e).0 == Named(t.name) && out[SenseAt(out, e).1..] == Rewrite(s[n..], d))
  {
    var (t, n) := First(s, d);
    var e := d.Opposite();
    var q := e.Tick();
    var out := Rewrite(s, d);
    if n < |s| && s[n] == q {
      var z := SwallowedForm(s, d);
      SwallowText(q, Double(t.name, q), z);
      var m := DecodeMerged(q, t.name, z);
      hide Rewrite, Double, Decode;
      assert |t.name + [q] + m| > |t.name|;
    } else {
      NameEnds(s, d);
      RewriteTurn(s, d);
      CarriedWrites(t, e);
      RewriteStarts(s[n..], d);
      assert n < |s| ==> s[n..][0] == s[n];
      var y := Rewrite(s[n..], d);
      hide Rewrite, Double, Decode;
      DecodeWritten(q, t.name, y);
      WrittenName(t.name, q, y);
    }
  }

  lemma WrittenName(name: string, q: char, y: string)
    ensures var s := [q] + Double(name, q) + [q] + y;
            s[0] == q && s[1..] == Double(name, q) + ([q] + y) && s[|Double(name, q)| + 2..] == y
  {
  }

  /** A character that opens nothing is read as itself. */
  lemma SignThen(c: char, y: string, e: Dialect)
    requires !e.Opens(c) && c != e.Tick()
    ensures Reading([c] + y, e) == [Sign(c)] + Reading(y, e)
  {
    assert ([c] + y)[1..] == y;
    assert SenseAt([c] + y, e) == (Sign(c), 1);
  }

  lemma DashesRead(y: string, e: Dialect)
    ensures Reading("--" + y, e) == [Sign('-'), Sign('-')] + Reading(y, e)
  {
    assert !e.Opens('-') && e.Tick() != '-';
    hide Reading;
    assert "--" + y == ['-'] + (['-'] + y);
    SignThen('-', ['-'] + y, e);
    SignThen('-', y, e);
    assert [Sign('-'), Sign('-')] + Reading(y, e) == [Sign('-')] + ([Sign('-')] + Reading(y, e));
  }

  lemma TurnedSign(c: char, e: Dialect)
    ensures Turned(Sign(c), e) == if c == '#' && e == Postgres then [Sign('-'), Sign('-')] else [Sign(c)]
  {
  }

  lemma SignRewritten(s: string, d: Dialect)
    requires s != "" && s[0] != d.Opposite().Tick() && s[0] != d.Tick() && s[0] != '\''
    ensures First(s, d) == (Chr(s[0]), 1)
    ensures Rewrite(s, d) == (if s[0] == '#' && d.Opposite() == Postgres then "--" else [s[0]]) + Rewrite(s[1..], d)
  {
    hide Rewrite;
    RewriteTurn(s, d);
    CarriedWrites(Chr(s[0]), d.Opposite());
  }

  /** Any other character is read as itself, a `#` as two dashes. */
  lemma SignRead(s: string, d: Dialect)
    requires s != "" && s[0] != d.Opposite().Tick() && s[0] != d.Tick() && s[0] != '\''
    ensures var e := d.Opposite();
            && First(s, d).1 == 1 && SenseAt(s, d) == (Sign(s[0]), 1)
            && Reading(Rewrite(s, d), e) == Turned(Sign(s[0]), e) + Reading(Rewrite(s[1..], d), e)
  {
    var e, y := d.Opposite(), Rewrite(s[1..], d);
    TurnedSign(s[0], e);
    assert !e.Opens(s[0]) && s[0] != e.Tick();
    assert SenseAt(s, d) == (Sign(s[0]), 1);
    SignRewritten(s, d);
    hide *;
    if s[0] == '#' && e == Postgres {
      DashesRead(y, e);
    } else {
      SignThen(s[0], y, e);
    }
  }

  /** Two readings with another first element each. */
  lemma HeadsDiffer(out: string, e: Dialect, s: string, d: Dialect)
    requires out != "" && s != "" && SenseAt(out, e).0 != SenseAt(s, d).0 && SenseAt(s, d).0 != Sign('#')
    ensures Reading(out, e) != TurnedAll(Reading(s, d), e)
  {
    hide SenseAt;
    ReadTurn(out, e, e);
    ReadTurn(s, d, e);
    var t := SenseAt(s, d).0;
    assert Turned(t, e) == [t];
    assert ([t] + TurnedAll(Reading(s[SenseAt(s, d).1..], d), e))[0] == t;
  }

  /** Two readings with the same first element agree exactly when their rests do. */
  lemma HeadsAgree(out: string, e: Dialect, s: string, d: Dialect)
    requires out != "" && s != "" && SenseAt(out, e).0 == SenseAt(s, d).0 && SenseAt(s, d).0 != Sign('#')
    ensures Reading(out, e) == TurnedAll(Reading(s, d), e)
       <==> Reading(out[SenseAt(out, e).1..], e) == TurnedAll(Reading(s[SenseAt(s, d).1..], d), e)
  {
    hide SenseAt;
    ReadTurn(out, e, e);
    ReadTurn(s, d, e);
    var t := SenseAt(s, d).0;
    assert Turned(t, e) == [t];
    SameBehind([t], Reading(out[SenseAt(out, e).1..], e), TurnedAll(Reading(s[SenseAt(s, d).1..], d), e));
  }

  lemma SameBehind(head: seq<Sense>, a: seq<Sense>, b: seq<Sense>)
    ensures head + a == head + b <==> a == b
  {
    assert (head + a)[|head|..] == a && (head + b)[|head|..] == b;
  }

  // ------------------------------------------------------------------ the theorems

  /**
    After a rewriting the other dialect reads what the first one read (strings by
    value, identifiers by name, a `#` as two dashes) exactly when no token begins with
    the other's identifier quote and no string has a backslash, except in front of `%`
    or `_`.
  */
  lemma {:induction false} TokensKeptIff(s: string, d: Dialect)
    ensures Reading(Rewrite(s, d), d.Opposite()) == TurnedAll(Reading(s, d), d.Opposite())
       <==> !Strays(s, d) && NoEscapes(s, d)
    decreases |s|
  {
    var e := d.Opposite();
    if s == "" {
      RewriteStarts(s, d);
      return;
    }
    hide First, Reading, TurnedAll, SenseAt, Rewrite, Inert, Quoted, Turned;
    var n := First(s, d).1;
    assert n < |s| ==> s[n..][0] == s[n];
    if s[0] == e.Tick() {
      StrayRead(s, d);
      NamedIsNoSign(SenseAt(Rewrite(s, d), e).0, SenseAt(s, d).0, s, d);
      HeadsDiffer(Rewrite(s, d), e, s, d);
    } else if s[0] == '\'' {
      StringRead(s, d);
      if Inert(s[1..Quoted(s)]) {
        HeadsAgree(Rewrite(s, d), e, s, d);
        TokensKeptIff(s[n..], d);
      } else {
        HeadsDiffer(Rewrite(s, d), e, s, d);
      }
    } else if s[0] == d.Tick() {
      NameRead(s, d);
      if n < |s| && s[n] == e.Tick() {
        HeadsDiffer(Rewrite(s, d), e, s, d);
      } else {
        HeadsAgree(Rewrite(s, d), e, s, d);
        TokensKeptIff(s[n..], d);
      }
    } else {
      SignRead(s, d);
      ReadTurn(s, d, e);
      TokensKeptIff(s[1..], d);
      SameBehind(Turned(Sign(s[0]), e), Reading(Rewrite(s[1..], d), e), TurnedAll(Reading(s[1..], d), e));
    }
  }

  /** A stray quote is not a `#`. */
  lemma NamedIsNoSign(a: Sense, b: Sense, s: string, d: Dialect)
    requires s != "" && s[0] == d.Opposite().Tick() && b == SenseAt(s, d).0 && a.Named? && !b.Named?
    ensures a != b && b != Sign('#')
  {
  }

  /** An ordinary MySQL string, with an escaped backslash in it, that PostgreSQL reads as another value. */
  lemma EscapedBackslash()
    ensures var s := "'a\\\\b'";
            && Escaped('\'', s[1..]).value == "a\\b" && Standard(s[1..]).value == "a\\\\b"
            && !NoEscapes(s, MySql) && !Strays(s, MySql)
  {
    var s := "'a\\\\b'";
    assert s[1..][1..] == "\\\\b'" && "\\\\b'"[2..] == "b'" && "b'"[1..] == "'";
    assert "\\\\b'"[1..] == "\\b'" && "\\b'"[1..] == "b'";
    assert Escaped('\'', "'") == Content("", 1, true) == Standard("'");
    assert Escaped('\'', "b'").value == "b" && Escaped('\'', "\\\\b'").value == "\\b";
    assert Standard("b'").value == "b" && Standard("\\b'").value == "\\b" && Standard("\\\\b'").value == "\\\\b";
    EscapedEnds('\'', s[1..]);
    assert Escaped('\'', "b'").used == 2 && Escaped('\'', "\\\\b'").used == 4 && Escaped('\'', s[1..]).used == 5;
    assert Quoted(s) == 6 && s[6..] == "";
    assert s[1..6][1] == '\\' && s[1..6][2] == '\\';
  }

  /**
    Whatever the other dialect reads after a pass that keeps the tokens, the old
    identifier quote neither stands by itself nor opens a string: it is left only
    inside strings and identifier names.
  */
  lemma {:induction false} OldQuoteGone(s: string, d: Dialect)
    requires !Strays(s, d) && NoEscapes(s, d)
    ensures forall t :: t in Reading(Rewrite(s, d), d.Opposite()) ==>
              (t.Sign? ==> t.c != d.Tick()) && (t.Text? ==> t.open == '\'')
  {
    var ts, e := Reading(s, d), d.Opposite();
    TokensKeptIff(s, d);
    ReadingFits(s, d);
    ReadingFits(Rewrite(s, d), e);
    hide Reading, Rewrite;
    forall t | t in Reading(Rewrite(s, d), e)
      ensures (t.Sign? ==> t.c != d.Tick()) && (t.Text? ==> t.open == '\'')
    {
      if t != Sign('-') {
        TurnedFrom(ts, e, t);
      }
    }
  }

  /** A dialect reads no sign that opens something, and no string that it does not open. */
  lemma {:induction false} ReadingFits(s: string, d: Dialect)
    ensures forall t :: t in Reading(s, d) ==>
              (t.Sign? ==> !d.Opens(t.c) && t.c != d.Tick()) && (t.Text? ==> d.Opens(t.open))
    decreases |s|
  {
    if s != "" {
      ReadingFits(s[SenseAt(s, d).1..], d);
      ReadTurn(s, d, d);
    }
  }

  lemma {:induction false} TurnedFrom(ts: seq<Sense>, e: Dialect, t: Sense)
    requires t in TurnedAll(ts, e) && t != Sign('-')
    ensures t in ts
  {
    if ts != [] && t !in Turned(ts[0], e) {
      TurnedFrom(ts[1..], e, t);
    }
  }
}
