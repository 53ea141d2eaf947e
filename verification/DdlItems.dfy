/**
  Cutting the body of a CREATE TABLE at its top-level commas (`split_top_level` in
  src-tauri/src/defer_index.rs), and putting items together again.
*/
module DdlItems {
  import opened Text
  import opened DdlScan

  function Glue(p: string, ps: seq<string>): seq<string>
    requires ps != []
  {
    [p + ps[0]] + ps[1..]
  }

  /** The raw stretches between top-level commas. */
  function Parts(s: string, d: int): (r: seq<string>)
    ensures r != []
    decreases |s|
  {
    if s == "" then [""]
    else if s[0] == ',' && d == 0 then [""] + Parts(s[1..], 0)
    else Glue(s[..Head(s)], Parts(s[Head(s)..], Moved(s[0], d)))
  }

  function Moved(c: char, d: int): int {
    if c == '(' then d + 1 else if c == ')' then d - 1 else d
  }

  /** Trimmed, empty ones dropped. */
  function Cleaned(parts: seq<string>): seq<string> {
    if parts == [] then []
    else (if Trim(parts[0]) == "" then [] else [Trim(parts[0])]) + Cleaned(parts[1..])
  }

  function Items(body: string): seq<string> {
    Cleaned(Parts(body, 0))
  }

  lemma {:induction false} CleanedAppend(a: seq<string>, b: seq<string>)
    ensures Cleaned(a + b) == Cleaned(a) + Cleaned(b)
  {
    if a == [] {
      assert a + b == b;
    } else {
      DropPrefix(a, b, 1);
      CleanedAppend(a[1..], b);
    }
  }

  lemma GlueGlue(a: string, b: string, ps: seq<string>)
    requires ps != []
    ensures Glue(a, Glue(b, ps)) == Glue(a + b, ps)
  {
    Assoc(a, b, ps[0]);
  }

  lemma {:induction false} CleanedOne(p: string)
    ensures Cleaned([p]) == if Trim(p) == "" then [] else [Trim(p)]
  {
    assert [p][1..] == [];
  }

  /** The items the loop has still to push when it stands at `i`. */
  function Left(body: string, start: nat, i: nat, depth: int): seq<string>
    requires start <= i <= |body|
  {
    Cleaned(Glue(body[start..i], Parts(body[i..], depth)))
  }

  method SplitTopLevel(body: string) returns (items: seq<string>)
    ensures items == Items(body)
  {
    hide Left, Items, Quoted, Trim;
    items := [];
    var depth, start, i := 0, 0, 0;
    LeftAll(body);
    while i < |body|
      invariant start <= i <= |body|
      invariant items + Left(body, start, i, depth) == Items(body)
    {
      var b := body[i];
      LeftStep(body, start, i, depth);
      if IsQuote(b) {
        i := SkipQuoted(body, i);
        continue;
      }
      match b {
        case '(' => depth := depth + 1;
        case ')' => depth := depth - 1;
        case ',' =>
          if depth == 0 {
            var part := Trim(body[start..i]);
            if part != "" {
              Assoc(items, [part], Left(body, i + 1, i + 1, 0));
              items := items + [part];
            }
            start := i + 1;
          }
        case _ =>
      }
      i := i + 1;
    }
    LeftEnd(body, start, depth);
    var part := Trim(body[start..]);
    if part != "" {
      items := items + [part];
    }
  }

  lemma LeftAll(body: string)
    ensures Left(body, 0, 0, 0) == Items(body)
  {
    assert body[0..] == body && body[0..0] == "";
    GlueNothing(Parts(body, 0));
  }

  lemma LeftEnd(body: string, start: nat, depth: int)
    requires start <= |body|
    ensures Left(body, start, |body|, depth) == if Trim(body[start..]) == "" then [] else [Trim(body[start..])]
  {
    var part := body[start..];
    assert body[|body|..] == "" && body[start..|body|] == part;
    assert part + "" == part && Glue(part, [""]) == [part];
    CleanedOne(part);
  }

  /** One turn of the loop: cut at a top-level comma, or go over the head. */
  lemma LeftStep(body: string, start: nat, i: nat, depth: int)
    requires start <= i < |body|
    ensures body[i] == ',' && depth == 0 ==>
              Left(body, start, i, depth)
              == (if Trim(body[start..i]) == "" then [] else [Trim(body[start..i])]) + Left(body, i + 1, i + 1, 0)
    ensures !(body[i] == ',' && depth == 0) ==>
              Left(body, start, i, depth)
              == Left(body, start, if IsQuote(body[i]) then i + Quoted(body[i..]) else i + 1, Moved(body[i], depth))
  {
    hide Parts, Head, Quoted, Trim;
    PartsStep(body, start, i, depth);
    if body[i] == ',' && depth == 0 {
      var part, more := body[start..i], Glue("", Parts(body[i + 1..], 0));
      assert body[i + 1..i + 1] == "";
      CleanedAppend([part], more);
      CleanedOne(part);
    }
  }

  lemma GlueNothing(ps: seq<string>)
    requires ps != []
    ensures Glue("", ps) == ps
  {
    assert "" + ps[0] == ps[0] && [ps[0]] + ps[1..] == ps;
  }

  /** How the parts of a text come about, by what stands at its head. */
  lemma PartsAt(rest: string, d: int)
    ensures rest == "" ==> Parts(rest, d) == [""]
    ensures rest != "" && rest[0] == ',' && d == 0 ==> Parts(rest, d) == [""] + Parts(rest[1..], 0)
    ensures rest != "" && !(rest[0] == ',' && d == 0) ==>
              Parts(rest, d) == Glue(rest[..Head(rest)], Parts(rest[Head(rest)..], Moved(rest[0], d)))
  {
  }

  /** One step of the loop, seen from the parts that are still to come. */
  lemma PartsStep(body: string, start: nat, i: nat, depth: int)
    requires start <= i < |body|
    ensures var k := Head(body[i..]);
            && (IsQuote(body[i]) ==> k == Quoted(body[i..])) && (!IsQuote(body[i]) ==> k == 1)
            && Glue(body[start..i], Parts(body[i..], depth))
            == if body[i] == ',' && depth == 0 then
                 [body[start..i]] + Glue("", Parts(body[i + 1..], 0))
               else Glue(body[start..i + k], Parts(body[i + k..], Moved(body[i], depth)))
  {
    hide Parts, Quoted;
    var rest := body[i..];
    var k := Head(rest);
    assert rest[0] == body[i] && rest[k..] == body[i + k..] && rest[1..] == body[i + 1..];
    if body[i] == ',' && depth == 0 {
      var more := Parts(body[i + 1..], 0);
      PartsAt(rest, 0);
      GlueNothing(more);
      assert ([""] + more)[1..] == more && body[start..i] + "" == body[start..i];
    } else {
      PartsAt(rest, depth);
      GlueGlue(body[start..i], rest[..k], Parts(rest[k..], Moved(rest[0], depth)));
      assert body[start..i] + rest[..k] == body[start..i + k];
    }
  }

  // ---------------------------------------------------------------- cutting apart

  /** A stretch that is balanced and has no top-level comma, starting at level `d`. */
  predicate SolidAt(p: string, d: nat) {
    Level(p, d) == Some(0) && Parts(p, d) == [p]
  }

  predicate Solid(p: string) {
    SolidAt(p, 0)
  }

  lemma {:induction false} SolidStep(p: string, d: nat)
    requires p != "" && Level(p, d).Some? && Parts(p, d) == [p]
    ensures !(p[0] == ',' && d == 0)
    ensures Parts(p[Head(p)..], Shifted(p[0], d).value) == [p[Head(p)..]]
  {
    var tail := Parts(p[1..], 0);
    assert |[""] + tail| == 1 + |tail| > |Parts(p, d)|;
    if !(p[0] == ',' && d == 0) {
      LevelGoesOn(p, d);
      var h, rest := p[..Head(p)], p[Head(p)..];
      var more := Parts(rest, Moved(p[0], d));
      assert Glue(h, more) == [p];
      assert |Glue(h, more)| == |more| && Glue(h, more)[0] == h + more[0];
      assert h + rest == p && h + more[0] == p;
      assert rest == p[|h|..] == more[0];
    }
  }

  lemma PartsTurn(t: string, k: nat, d: nat, d': nat)
    requires t != "" && k == Head(t) && Shifted(t[0], d) == Some(d') && !(t[0] == ',' && d == 0)
    ensures Parts(t, d) == Glue(t[..k], Parts(t[k..], d'))
  {
  }

  /** A part cut out of a balanced text: the same head, then the part of the rest. */
  lemma {:induction false} SolidCons(s: string, d: nat, f: string)
    requires s != "" && Level(s, d).Some? && !(s[0] == ',' && d == 0)
    requires f <= s[Head(s)..] && SolidAt(f, Shifted(s[0], d).value)
    ensures SolidAt(s[..Head(s)] + f, d)
  {
    hide Level, Parts, Head, Sealed, Shifted;
    LevelGoesOn(s, d);
    var k, d' := Head(s), Shifted(s[0], d).value;
    var t := s[..k] + f;
    HeadCut(s, k + |f|);
    assert t == s[..k + |f|];
    assert t[k..] == f && t[..k] == s[..k];
    LevelTurn(t, k, d, d');
    PartsTurn(t, k, d, d');
    assert Glue(s[..k], [f]) == [t];
  }

  predicate AllSolid(ps: seq<string>) {
    forall i :: 0 <= i < |ps| ==> Solid(ps[i])
  }

  lemma {:induction false} PartsSolidStep(s: string, d: nat, ps: seq<string>)
    requires s != "" && Level(s, d).Some? && !(s[0] == ',' && d == 0)
    requires ps != [] && ps[0] <= s[Head(s)..] && SolidAt(ps[0], Shifted(s[0], d).value) && AllSolid(ps[1..])
    ensures var g := Glue(s[..Head(s)], ps);
            g[0] <= s && SolidAt(g[0], d) && AllSolid(g[1..])
  {
    var k := Head(s);
    SolidCons(s, d, ps[0]);
    assert s[..k] + s[k..] == s && Glue(s[..k], ps)[1..] == ps[1..];
  }

  /** Every part of a balanced body is solid. */
  lemma {:induction false} PartsSolid(s: string, d: nat)
    requires Level(s, d) == Some(0)
    ensures var ps := Parts(s, d);
            ps[0] <= s && SolidAt(ps[0], d) && AllSolid(ps[1..])
    decreases |s|
  {
    if s == "" {
      assert Parts(s, d)[1..] == [];
    } else {
      LevelGoesOn(s, d);
      var k := Head(s);
      var ps := Parts(s[k..], Moved(s[0], d));
      PartsSolid(s[k..], Shifted(s[0], d).value);
      if s[0] == ',' && d == 0 {
        assert Parts(s, d)[1..] == ps && Parts(s, d)[0] == "";
        assert forall i :: 0 < i < |ps| ==> ps[i] == ps[1..][i - 1];
      } else {
        PartsSolidStep(s, d, ps);
      }
    }
  }

  lemma {:induction false} BlankFront(left: string, t: string, d: nat)
    requires Blank(left) && SolidAt(left + t, d)
    ensures SolidAt(t, d)
  {
    if left == "" {
      assert left + t == t;
    } else {
      var p := left + t;
      assert p[0] == left[0] && p[1..] == left[1..] + t;
      SolidStep(p, d);
      BlankFront(left[1..], t, d);
    }
  }

  lemma HeadInside(t: string, right: string)
    requires t != "" && Blank(right)
    requires IsQuote(t[0]) ==> Span(t[0], (t + right)[1..]).Some?
    ensures Head(t + right) <= |t|
  {
    var p := t + right;
    if IsQuote(t[0]) {
      var n := Span(t[0], p[1..]).value;
      SpanEndsInQuote(t[0], p[1..]);
      assert p[n] == p[1..][n - 1] == t[0];
      assert forall m :: |t| <= m < |p| ==> p[m] == right[m - |t|];
    }
  }

  lemma {:induction false} BlankBack(t: string, right: string, d: nat)
    requires Blank(right) && SolidAt(t + right, d)
    ensures SolidAt(t, d)
    decreases |t|
  {
    var p := t + right;
    hide Level, Parts, Head, Sealed, Shifted;
    if t == "" {
      assert p == right && right + "" == right;
      BlankFront(right, "", d);
    } else {
      LevelGoesOn(p, d);
      SolidStep(p, d);
      HeadInside(t, right);
      var k := Head(p);
      DropPrefix(t, right, k);
      BlankBack(t[k..], right, Shifted(p[0], d).value);
      SolidCons(p, d, t[k..]);
      assert p[..k] == t[..k] && t[..k] + t[k..] == t;
    }
  }

  /** Trimming keeps a part solid. */
  lemma TrimmedSolid(p: string)
    requires Solid(p)
    ensures Solid(Trim(p))
  {
    var left, right := TrimSplits(p);
    Assoc(left, Trim(p), right);
    BlankFront(left, Trim(p) + right, 0);
    BlankBack(Trim(p), right, 0);
  }

  predicate ItemOk(item: string) {
    Solid(item) && Tight(item)
  }

  lemma {:induction false} CleanedOk(ps: seq<string>)
    requires forall p :: p in ps ==> Solid(p)
    ensures forall it :: it in Cleaned(ps) ==> ItemOk(it)
  {
    if ps != [] {
      assert ps[0] in ps && forall p :: p in ps[1..] ==> p in ps;
      CleanedOk(ps[1..]);
      TrimmedSolid(ps[0]);
      var _, _ := TrimSplits(ps[0]);
    }
  }

  /** The items of a balanced body are balanced, trimmed, and free of top-level commas. */
  lemma {:induction false} ItemsOk(body: string)
    requires Level(body, 0) == Some(0)
    ensures forall it :: it in Items(body) ==> ItemOk(it)
  {
    PartsSolid(body, 0);
    var ps := Parts(body, 0);
    forall p | p in ps ensures Solid(p) {
      var i :| 0 <= i < |ps| && ps[i] == p;
    }
    CleanedOk(ps);
  }

  // -------------------------------------------------------------- putting together

  lemma {:induction false} PartsAfter(a: string, x: string, d: nat)
    requires Level(a, d).Some? && Parts(a, d) == [a] && Apart(x)
    ensures Parts(a + x, d) == Glue(a, Parts(x, Level(a, d).value))
    decreases |a|
  {
    if a == "" {
      assert a + x == x;
      PartsAt(a, d);
      AtParens(a, d);
      GlueNothing(Parts(x, d));
    } else {
      LevelGoesOn(a, d);
      SolidStep(a, d);
      HeadExtends(a, x);
      hide Parts, Level, Head, Shifted, Sealed;
      var k, d' := Head(a), Shifted(a[0], d).value;
      PartsAfter(a[k..], x, d');
      PartsTurn(a + x, k, d, d');
      assert (a + x)[..k] == a[..k];
      GlueGlue(a[..k], a[k..], Parts(x, Level(a, d).value));
      assert a[..k] + a[k..] == a;
    }
  }

  lemma {:induction false} BlankBefore(left: string, x: string)
    requires Blank(left)
    ensures Parts(left + x, 0) == Glue(left, Parts(x, 0)) && Level(left + x, 0) == Level(x, 0)
  {
    if left == "" {
      assert left + x == x;
      GlueNothing(Parts(x, 0));
    } else {
      var p := left + x;
      assert p[0] == left[0] && p[1..] == left[1..] + x && p[..1] == left[..1];
      BlankBefore(left[1..], x);
      GlueGlue(left[..1], left[1..], Parts(x, 0));
      assert left[..1] + left[1..] == left;
    }
  }

  /** The layout of the rewritten body. */
  function Layout(items: seq<string>): string {
    "\n  " + Join(items, ",\n  ") + "\n"
  }

  /** Reading one item behind its indentation. */
  lemma IndentedItem(item: string, x: string)
    requires ItemOk(item) && Apart(x)
    ensures Parts("\n  " + item + x, 0) == Glue("\n  " + item, Parts(x, 0))
    ensures Level("\n  " + item + x, 0) == Level(x, 0)
  {
    Assoc("\n  ", item, x);
    BlankBefore("\n  ", item + x);
    PartsAfter(item, x, 0);
    LevelAppend(item, x, 0);
    GlueGlue("\n  ", item, Parts(x, 0));
  }

  lemma IndentTrims(item: string)
    requires Tight(item)
    ensures Trim("\n  " + item) == item && Trim("\n  " + item + "\n") == item
  {
    TrimPadded("\n  ", item, "\n");
    TrimPadded("\n  ", item, "");
    assert "\n  " + item + "" == "\n  " + item;
  }

  /** Laid-out items come apart into exactly those items, and the layout is balanced. */
  lemma {:induction false} LayoutItems(items: seq<string>)
    requires forall it :: it in items ==> ItemOk(it)
    ensures Items(Layout(items)) == items && Level(Layout(items), 0) == Some(0)
  {
    if items == [] {
      assert Layout([]) == "\n  \n" && "\n  \n" + "" == "\n  \n";
      BlankBefore("\n  \n", "");
      TrimPadded("\n  \n", "", "");
      assert "\n  \n" + "" + "" == "\n  \n";
      CleanedOne("\n  \n");
    } else {
      assert items[0] in items && forall it :: it in items[1..] ==> it in items;
      IndentTrims(items[0]);
      if |items| == 1 {
        IndentedItem(items[0], "\n");
        BlankBefore("\n", "");
        assert "\n" + "" == "\n";
        CleanedOne("\n  " + items[0] + "\n");
      } else {
        LayoutItems(items[1..]);
        LayoutCons(items);
      }
    }
  }

  lemma LayoutCons(items: seq<string>)
    requires |items| > 1 && ItemOk(items[0])
    requires Items(Layout(items[1..])) == items[1..] && Level(Layout(items[1..]), 0) == Some(0)
    ensures Items(Layout(items)) == items && Level(Layout(items), 0) == Some(0)
  {
    var tail := Layout(items[1..]);
    var j := Join(items[1..], ",\n  ");
    assert Layout(items) == "\n  " + items[0] + ("," + tail) by {
      assert "\n  " + (items[0] + ",\n  " + j) + "\n" == "\n  " + items[0] + ("," + ("\n  " + j + "\n"));
    }
    IndentedItem(items[0], "," + tail);
    assert ("," + tail)[1..] == tail && ("," + tail)[0] == ',';
    assert Parts("," + tail, 0) == [""] + Parts(tail, 0);
    assert Level("," + tail, 0) == Level(tail, 0);
    var head := "\n  " + items[0];
    assert head + "" == head;
    assert Glue(head, [""] + Parts(tail, 0)) == [head] + Parts(tail, 0);
    CleanedAppend([head], Parts(tail, 0));
    CleanedOne(head);
    IndentTrims(items[0]);
    assert items == [items[0]] + items[1..];
  }
}
