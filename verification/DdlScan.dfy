/**
  The quote- and parenthesis-aware scanners of the deferred-index splitter
  (`skip_quoted`, `outer_parens`, `split_top_level` in src-tauri/src/defer_index.rs)
  and what they see of a text that is cut up or put together.
*/
module DdlScan {
  import opened Text

  /** Bytes up to and including the closing quote; `None` if the span never closes. */
  function Span(q: char, s: string): (r: Option<nat>)
    ensures r.Some? ==> 1 <= r.value <= |s|
  {
    if s == "" then None
    else if s[0] == '\\' && |s| > 1 then Longer(Span(q, s[2..]), 2)
    else if s[0] == q then
      if |s| > 1 && s[1] == q then Longer(Span(q, s[2..]), 2) else Some(1)
    else Longer(Span(q, s[1..]), 1)
  }

  /** Bytes of the quoted span at the head of `s`, or all of it when the span never closes. */
  function Quoted(s: string): (n: nat)
    requires s != ""
    ensures 1 <= n <= |s|
  {
    match Span(s[0], s[1..])
    case Some(n) => 1 + n
    case None => |s|
  }

  /** `Span` of what is left at `j`, as an index into the whole text. */
  function SpanFrom(q: char, s: string, j: nat): Option<nat>
    requires j <= |s|
  {
    Longer(Span(q, s[j..]), j)
  }

  /** Where one turn of a quote loop goes from `j`. */
  predicate Skips(q: char, s: string, j: nat, k: nat)
    requires j < |s|
  {
    if s[j] == '\\' && j + 1 < |s| then k == j + 2
    else if s[j] == q then j + 1 < |s| && s[j + 1] == q && k == j + 2
    else k == j + 1
  }

  lemma SpanStep(q: char, s: string, j: nat, k: nat)
    requires j < |s| && Skips(q, s, j, k)
    ensures SpanFrom(q, s, j) == SpanFrom(q, s, k)
  {
    var rest := s[j..];
    assert rest[0] == s[j] && (|rest| > 1 ==> rest[1] == s[j + 1]);
    assert rest[k - j..] == s[k..];
  }

  lemma SpanEnds(q: char, s: string, j: nat)
    requires j <= |s| && q != '\\'
    ensures j == |s| ==> SpanFrom(q, s, j) == None
    ensures j < |s| && s[j] == q && (j + 1 < |s| ==> s[j + 1] != q) ==> SpanFrom(q, s, j) == Some(j + 1)
  {
    if j < |s| {
      var rest := s[j..];
      assert rest[0] == s[j] && (|rest| > 1 ==> rest[1] == s[j + 1]);
    }
  }

  lemma QuotedFrom(s: string, i: nat)
    requires i < |s|
    ensures i + Quoted(s[i..]) == match SpanFrom(s[i], s, i + 1) case Some(v) => v case None => |s|
  {
    assert s[i..][1..] == s[i + 1..];
  }

  method SkipQuoted(bytes: string, i: nat) returns (j: nat)
    requires i < |bytes| && IsQuote(bytes[i])
    ensures j == i + Quoted(bytes[i..])
  {
    var quote := bytes[i];
    QuotedFrom(bytes, i);
    j := i + 1;
    while j < |bytes|
      invariant i + 1 <= j <= |bytes|
      invariant SpanFrom(quote, bytes, i + 1) == SpanFrom(quote, bytes, j)
    {
      var c := bytes[j];
      if c == '\\' && j + 1 < |bytes| {
        SpanStep(quote, bytes, j, j + 2);
        j := j + 2;
        continue;
      }
      if c == quote {
        if j + 1 < |bytes| && bytes[j + 1] == quote {
          SpanStep(quote, bytes, j, j + 2);
          j := j + 2;
          continue;
        }
        SpanEnds(quote, bytes, j);
        return j + 1;
      }
      SpanStep(quote, bytes, j, j + 1);
      j := j + 1;
    }
    SpanEnds(quote, bytes, j);
  }

  /** A closed span stays closed in any text that goes on with something else than its quote. */
  lemma {:induction false} SpanExtends(q: char, s: string, x: string)
    requires q != '\\' && Span(q, s).Some? && (x == "" || x[0] != q)
    ensures Span(q, s + x) == Span(q, s)
    decreases |s|
  {
    var all := s + x;
    assert all[0] == s[0] && (|s| > 1 ==> all[1] == s[1]);
    if s[0] == '\\' && |s| > 1 {
      DropPrefix(s, x, 2);
      SpanExtends(q, s[2..], x);
    } else if s[0] == q {
      if |s| > 1 && s[1] == q {
        DropPrefix(s, x, 2);
        SpanExtends(q, s[2..], x);
      } else {
        assert |all| > 1 ==> all[1] != q;
      }
    } else {
      assert |s| > 1;
      DropPrefix(s, x, 1);
      SpanExtends(q, s[1..], x);
    }
  }

  /** A span that closes within the first `m` bytes closes there when the text is cut. */
  lemma {:induction false} SpanCut(q: char, s: string, m: nat)
    requires q != '\\' && Span(q, s).Some? && Span(q, s).value <= m <= |s|
    ensures Span(q, s[..m]) == Span(q, s)
    decreases |s|
  {
    var t := s[..m];
    assert t[0] == s[0] && (m > 1 ==> t[1] == s[1]);
    if s[0] == '\\' && |s| > 1 {
      assert t[2..] == s[2..][..m - 2];
      SpanCut(q, s[2..], m - 2);
    } else if s[0] == q {
      if |s| > 1 && s[1] == q {
        assert t[2..] == s[2..][..m - 2];
        SpanCut(q, s[2..], m - 2);
      }
    } else {
      assert t[1..] == s[1..][..m - 1];
      SpanCut(q, s[1..], m - 1);
    }
  }

  lemma {:induction false} SpanEndsInQuote(q: char, s: string)
    requires Span(q, s).Some?
    ensures s[Span(q, s).value - 1] == q
    decreases |s|
  {
    if s[0] == '\\' && |s| > 1 {
      SpanEndsInQuote(q, s[2..]);
    } else if s[0] == q {
      if |s| > 1 && s[1] == q {
        SpanEndsInQuote(q, s[2..]);
      }
    } else {
      SpanEndsInQuote(q, s[1..]);
    }
  }

  // ------------------------------------------------------------------- nesting

  /** The head of `a` that one scanner step takes. */
  function Head(a: string): (n: nat)
    requires a != ""
    ensures 1 <= n <= |a|
  {
    if IsQuote(a[0]) then Quoted(a) else 1
  }

  function Shifted(c: char, d: nat): Option<nat> {
    if c == '(' then Some(d + 1)
    else if c == ')' then if d == 0 then None else Some(d - 1)
    else Some(d)
  }

  /** A quoted span at the head of `a` closes. */
  predicate Sealed(a: string)
    requires a != ""
  {
    IsQuote(a[0]) ==> Span(a[0], a[1..]).Some?
  }

  /** The nesting level after `s`, starting at `d`; `None` if it dips below zero or a quote stays open. */
  function Level(s: string, d: nat): Option<nat>
    decreases |s|
  {
    if s == "" then Some(d)
    else if !Sealed(s) || Shifted(s[0], d).None? then None
    else Level(s[Head(s)..], Shifted(s[0], d).value)
  }

  /** What follows is not read as part of a quoted span that has just closed. */
  predicate Apart(x: string) {
    x == "" || !IsQuote(x[0])
  }

  /** The head of a text is the same in front of anything it does not run into. */
  lemma HeadExtends(a: string, x: string)
    requires a != "" && Sealed(a) && Apart(x)
    ensures Head(a + x) == Head(a) && Sealed(a + x) && (a + x)[0] == a[0] && (a + x)[Head(a)..] == a[Head(a)..] + x
  {
    DropPrefix(a, x, Head(a));
    if IsQuote(a[0]) {
      DropPrefix(a, x, 1);
      SpanExtends(a[0], a[1..], x);
    }
  }

  /** And the same in what is cut off behind it. */
  lemma HeadCut(a: string, m: nat)
    requires a != "" && Head(a) <= m <= |a| && Sealed(a)
    ensures Head(a[..m]) == Head(a) && Sealed(a[..m])
    ensures a[..m][0] == a[0] && a[..m][Head(a)..] == a[Head(a)..][..m - Head(a)]
  {
    TakeDrop(a, m, Head(a));
    if IsQuote(a[0]) {
      SpanCut(a[0], a[1..], m - 1);
      assert a[..m][1..] == a[1..][..m - 1];
    }
  }

  lemma LevelTurn(a: string, k: nat, d: nat, d': nat)
    requires a != "" && k == Head(a) && Sealed(a) && Shifted(a[0], d) == Some(d')
    ensures Level(a, d) == Level(a[k..], d')
  {
  }

  lemma {:induction false} LevelAppend(a: string, x: string, d: nat)
    requires Level(a, d).Some? && Apart(x)
    ensures Level(a + x, d) == Level(x, Level(a, d).value)
    decreases |a|
  {
    if a == "" {
      assert a + x == x;
    } else {
      var k, d' := Head(a), Shifted(a[0], d).value;
      HeadExtends(a, x);
      LevelTurn(a, k, d, d');
      LevelTurn(a + x, k, d, d');
      LevelAppend(a[k..], x, d');
    }
  }

  // ------------------------------------------------------------- the outer parentheses

  datatype Pair = Pair(open: nat, close: nat)

  function OuterFrom(s: string, i: nat, open: Option<nat>, depth: int): (r: Option<Pair>)
    requires i <= |s| && (open.Some? ==> open.value < i)
    ensures r.Some? ==> r.value.open < r.value.close < |s|
    decreases |s| - i
  {
    if i == |s| then None
    else if IsQuote(s[i]) then OuterFrom(s, i + Quoted(s[i..]), open, depth)
    else if s[i] == '(' then OuterFrom(s, i + 1, if open.None? then Some(i) else open, depth + 1)
    else if s[i] == ')' then
      if depth - 1 == 0 then match open case Some(o) => Some(Pair(o, i)) case None => None
      else OuterFrom(s, i + 1, open, depth - 1)
    else OuterFrom(s, i + 1, open, depth)
  }

  function Outer(s: string): Option<Pair> {
    OuterFrom(s, 0, None, 0)
  }

  method OuterParens(sql: string) returns (r: Option<Pair>)
    ensures r == Outer(sql)
  {
    var i := 0;
    var open: Option<nat> := None;
    var depth := 0;
    while i < |sql|
      invariant i <= |sql| && (open.Some? ==> open.value < i)
      invariant Outer(sql) == OuterFrom(sql, i, open, depth)
    {
      var b := sql[i];
      if IsQuote(b) {
        i := SkipQuoted(sql, i);
        continue;
      }
      if b == '(' {
        if open.None? {
          open := Some(i);
        }
        depth := depth + 1;
      } else if b == ')' {
        depth := depth - 1;
        if depth == 0 {
          return if open.Some? then Some(Pair(open.value, i)) else None;
        }
      }
      i := i + 1;
    }
    return None;
  }

  /** The first `(` outside quotes, if no `)` comes before it. */
  function FindOpen(s: string): (r: Option<nat>)
    ensures r.Some? ==> r.value < |s| && s[r.value] == '('
    decreases |s|
  {
    if s == "" || s[0] == ')' then None
    else if s[0] == '(' then Some(0)
    else Longer(FindOpen(s[Head(s)..]), Head(s))
  }

  /** The `)` that brings the depth from `d` to zero. */
  function FindClose(s: string, d: nat): (r: Option<nat>)
    requires d > 0
    ensures r.Some? ==> r.value < |s| && s[r.value] == ')'
    decreases |s|
  {
    if s == "" then None
    else if s[0] == ')' && d == 1 then Some(0)
    else Longer(FindClose(s[Head(s)..], Shifted(s[0], d).value), Head(s))
  }

  lemma OuterStep(s: string, i: nat, open: Option<nat>, depth: int)
    requires i < |s| && (open.Some? ==> open.value < i)
    ensures s[i] == ')' && depth == 1 && open.Some? ==> OuterFrom(s, i, open, depth) == Some(Pair(open.value, i))
    ensures !(s[i] == ')' && depth == 1) ==>
              OuterFrom(s, i, open, depth)
              == OuterFrom(s, i + Head(s[i..]), if s[i] == '(' && open.None? then Some(i) else open,
                           if s[i] == '(' then depth + 1 else if s[i] == ')' then depth - 1 else depth)
  {
    assert s[i..][0] == s[i];
  }

  lemma CloseStep(rest: string, d: nat)
    requires d > 0 && rest != "" && !(rest[0] == ')' && d == 1)
    ensures Shifted(rest[0], d).Some? && Shifted(rest[0], d).value > 0
    ensures FindClose(rest, d) == Longer(FindClose(rest[Head(rest)..], Shifted(rest[0], d).value), Head(rest))
  {
  }

  lemma OuterTurn(s: string, i: nat, open: Option<nat>, d: nat, d': nat)
    requires i < |s| && open.Some? && open.value < i && !(s[i] == ')' && d == 1)
    requires Shifted(s[i], d) == Some(d')
    ensures OuterFrom(s, i, open, d) == OuterFrom(s, i + Head(s[i..]), open, d')
  {
    OuterStep(s, i, open, d);
  }

  lemma OuterBegins(s: string, i: nat)
    requires i < |s| && s[i] == '('
    ensures OuterFrom(s, i, None, 0) == OuterFrom(s, i + 1, Some(i), 1)
  {
  }

  /** `FindClose` as a pair of indices into the whole text. */
  function ClosedAt(o: nat, i: nat, n: Option<nat>): Option<Pair> {
    match n case Some(v) => Some(Pair(o, i + v)) case None => None
  }

  lemma OuterDone(s: string, i: nat, o: nat, d: nat)
    requires o < i <= |s| && d > 0 && (i == |s| || (s[i] == ')' && d == 1))
    ensures OuterFrom(s, i, Some(o), d) == ClosedAt(o, i, FindClose(s[i..], d))
  {
    if i < |s| {
      assert s[i..][0] == s[i];
      OuterStep(s, i, Some(o), d);
    }
  }

  lemma {:induction false} OuterClose(s: string, i: nat, o: nat, d: nat)
    requires o < i <= |s| && d > 0
    ensures OuterFrom(s, i, Some(o), d) == ClosedAt(o, i, FindClose(s[i..], d))
    decreases |s| - i
  {
    hide OuterFrom, FindClose, Head, Shifted;
    if i == |s| || (s[i] == ')' && d == 1) {
      OuterDone(s, i, o, d);
    } else {
      var rest := s[i..];
      assert rest[0] == s[i];
      CloseStep(rest, d);
      var k, d' := Head(rest), Shifted(rest[0], d).value;
      assert rest[k..] == s[i + k..];
      OuterTurn(s, i, Some(o), d, d');
      OuterClose(s, i + k, o, d');
    }
  }

  lemma {:induction false} OuterOpen(s: string, i: nat, o: nat)
    requires i <= |s| && FindOpen(s[i..]).Some? && o == i + FindOpen(s[i..]).value
    ensures OuterFrom(s, i, None, 0) == OuterFrom(s, o + 1, Some(o), 1)
    decreases |s| - i
  {
    hide OuterFrom, FindOpen, Head;
    var rest := s[i..];
    assert rest[0] == s[i];
    if s[i] == '(' {
      AtParens(rest, 0);
      OuterBegins(s, i);
    } else {
      var k := Head(rest);
      OpenTurn(rest, FindOpen(rest).value);
      assert rest[k..] == s[i + k..];
      OuterStep(s, i, None, 0);
      OuterOpen(s, i + k, o);
    }
  }

  /** `outer_parens`, when the text opens before it closes. */
  lemma OuterIs(s: string)
    requires FindOpen(s).Some?
    ensures var o := FindOpen(s).value;
            Outer(s) == ClosedAt(o, o + 1, FindClose(s[o + 1..], 1))
  {
    hide OuterFrom, FindOpen, FindClose;
    var o := FindOpen(s).value;
    assert s[0..] == s;
    OuterOpen(s, 0, o);
    OuterClose(s, o + 1, o, 1);
  }

  /** The functions where they stop. */
  lemma AtParens(s: string, d: nat)
    ensures s != "" && s[0] == '(' ==> FindOpen(s) == Some(0)
    ensures s != "" && s[0] == ')' ==> FindClose(s, 1) == Some(0)
    ensures Level(s[..0], d) == Some(d)
  {
  }

  lemma UnsealedEnds(s: string)
    requires s != ""
    ensures Sealed(s) || s[Head(s)..] == ""
  {
  }

  lemma OpenTurn(s: string, o: nat)
    requires FindOpen(s) == Some(o) && s[0] != '('
    ensures Head(s) <= o && FindOpen(s[Head(s)..]) == Some(o - Head(s)) && s[0] != ')' && Sealed(s)
  {
    UnsealedEnds(s);
  }

  lemma OpenIs(s: string, k: nat, n: nat)
    requires s != "" && s[0] != '(' && s[0] != ')' && k == Head(s) && FindOpen(s[k..]) == Some(n)
    ensures FindOpen(s) == Some(k + n)
  {
  }

  /** What is in front of the first `(` decides where it is. */
  lemma {:induction false} FindOpenLocal(s: string, o: nat, x: string)
    requires FindOpen(s) == Some(o)
    ensures o < |s| && FindOpen(s[..o + 1] + x) == Some(o)
    decreases |s|
  {
    hide FindOpen, Head, Sealed;
    var t := s[..o + 1] + x;
    assert t[0] == s[0];
    if s[0] == '(' {
      AtParens(s, 0);
      AtParens(t, 0);
    } else {
      var k := Head(s);
      OpenTurn(s, o);
      FindOpenLocal(s[k..], o - k, x);
      HeadCut(s, o + 1);
      HeadWithin(s[..o + 1], x);
      assert t[k..] == s[k..][..o - k + 1] + x;
      OpenIs(t, k, o - k);
    }
  }

  /** A head that is not the whole text is not touched by what follows the text. */
  lemma HeadWithin(a: string, x: string)
    requires a != "" && Sealed(a) && Head(a) < |a|
    ensures Head(a + x) == Head(a) && Sealed(a + x) && (a + x)[Head(a)..] == a[Head(a)..] + x
  {
    DropPrefix(a, x, Head(a));
    if IsQuote(a[0]) {
      DropPrefix(a, x, 1);
      SpanInside(a[0], a[1..], x);
    }
  }

  /** A span that closes strictly inside a text is not touched by what follows the text. */
  lemma {:induction false} SpanInside(q: char, s: string, x: string)
    requires Span(q, s).Some? && Span(q, s).value < |s|
    ensures Span(q, s + x) == Span(q, s)
    decreases |s|
  {
    var all := s + x;
    assert all[0] == s[0] && all[1] == s[1];
    var k := if s[0] == '\\' || (s[0] == q && s[1] == q) then 2 else 1;
    if s[0] == '\\' || s[0] != q || s[1] == q {
      DropPrefix(s, x, k);
      SpanInside(q, s[k..], x);
    }
  }

  lemma ShiftedBack(c: char, d: nat)
    requires d > 0 && Shifted(c, d).Some? && Shifted(c, d).value > 0
    ensures Shifted(c, d - 1) == Some(Shifted(c, d).value - 1)
  {
  }

  lemma {:induction false} CloseTurn(s: string, d: nat, n: nat)
    requires d > 0 && FindClose(s, d) == Some(n) && !(s[0] == ')' && d == 1)
    ensures Head(s) <= n && Sealed(s) && Shifted(s[0], d).Some? && Shifted(s[0], d).value > 0
    ensures FindClose(s[Head(s)..], Shifted(s[0], d).value) == Some(n - Head(s))
  {
    CloseStep(s, d);
    UnsealedEnds(s);
    hide Head, Sealed, Shifted;
  }

  lemma CloseIs(s: string, k: nat, d: nat, d': nat, n: nat)
    requires d > 0 && s != "" && !(s[0] == ')' && d == 1)
    requires k == Head(s) && Shifted(s[0], d) == Some(d') && d' > 0 && FindClose(s[k..], d') == Some(n)
    ensures FindClose(s, d) == Some(k + n)
  {
  }

  lemma LevelGoesOn(a: string, d: nat)
    requires a != "" && Level(a, d).Some?
    ensures Sealed(a) && Shifted(a[0], d).Some? && Level(a, d) == Level(a[Head(a)..], Shifted(a[0], d).value)
    ensures Shifted(a[0], d + 1) == Some(Shifted(a[0], d).value + 1) && (a[0] == ')' ==> d > 0)
  {
  }

  /** Up to the closing parenthesis the level never dips: the body is balanced. */
  lemma {:induction false} CloseBalanced(s: string, d: nat, n: nat)
    requires d > 0 && FindClose(s, d) == Some(n)
    ensures n < |s| && Level(s[..n], d - 1) == Some(0)
    decreases |s|
  {
    hide FindClose, Level, Head, Sealed, Shifted;
    if s[0] == ')' && d == 1 {
      AtParens(s, 0);
    } else {
      CloseTurn(s, d, n);
      ShiftedBack(s[0], d);
      var k, d' := Head(s), Shifted(s[0], d).value;
      CloseBalanced(s[k..], d', n - k);
      HeadCut(s, n);
      LevelTurn(s[..n], k, d - 1, d' - 1);
    }
  }

  /** And a balanced body is closed by the parenthesis right behind it. */
  lemma {:induction false} BalancedCloses(b: string, d: nat, x: string)
    requires Level(b, d) == Some(0) && x != "" && x[0] == ')'
    ensures FindClose(b + x, d + 1) == Some(|b|)
    decreases |b|
  {
    hide FindClose, Level, Head, Sealed, Shifted;
    if b == "" {
      assert b + x == x;
      AtParens(b, d);
      AtParens(x, 0);
    } else {
      LevelGoesOn(b, d);
      var k, d' := Head(b), Shifted(b[0], d).value;
      HeadExtends(b, x);
      BalancedCloses(b[k..], d', x);
      CloseIs(b + x, k, d + 1, d' + 1, |b| - k);
    }
  }
}
