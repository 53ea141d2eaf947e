/**
  Recognising the multi-row `INSERT ... VALUES (..),(..)` statements that the
  importer may glue together (src-tauri/src/sql_import.rs). The scanners are
  specified on what is left of the text; `Groups` is the reference reading of a
  tuple list as its row texts.
*/
module InsertSplit {
  import opened Text

  /** An insert cut at its `VALUES` keyword. */
  datatype Cut = Cut(prefix: string, tuples: string)

  // ---------------------------------------------------------------- quoted spans

  /** Bytes of `s` up to and including the quote that closes a span opened just before it. */
  function QuoteEnd(q: char, s: string): (n: nat)
    ensures n <= |s| && (s != "" ==> n >= 1)
  {
    if s == "" then 0
    else if s[0] == '\\' && q != '`' then
      if |s| == 1 then 1 else 2 + QuoteEnd(q, s[2..])
    else if s[0] == q then
      if |s| > 1 && s[1] == q then 2 + QuoteEnd(q, s[2..]) else 1
    else 1 + QuoteEnd(q, s[1..])
  }

  method SkipQuoted(bytes: string, i: nat) returns (j: nat)
    requires i < |bytes|
    ensures j == i + 1 + QuoteEnd(bytes[i], bytes[i + 1..])
  {
    var q := bytes[i];
    j := i + 1;
    while j < |bytes|
      invariant i + 1 <= j <= |bytes|
      invariant i + 1 + QuoteEnd(q, bytes[i + 1..]) == j + QuoteEnd(q, bytes[j..])
    {
      var c := bytes[j];
      ghost var rest := bytes[j..];
      if c == '\\' && q != '`' {
        if j + 1 < |bytes| {
          assert rest[2..] == bytes[j + 2..];
          j := j + 2;
        } else {
          return |bytes|;
        }
      } else if c == q {
        if j + 1 < |bytes| && bytes[j + 1] == q {
          assert rest[2..] == bytes[j + 2..];
          j := j + 2;
        } else {
          return j + 1;
        }
      } else {
        assert rest[1..] == bytes[j + 1..];
        j := j + 1;
      }
    }
  }

  /** A span that closes before the end of the text closes at the same place in any longer text. */
  lemma {:induction false} QuoteEndLocal(q: char, s: string, t: string)
    requires QuoteEnd(q, s) < |s|
    requires QuoteEnd(q, s) < |t| && forall k :: 0 <= k <= QuoteEnd(q, s) ==> t[k] == s[k]
    ensures QuoteEnd(q, t) == QuoteEnd(q, s)
  {
    assert t[0] == s[0];
    if s[0] == '\\' && q != '`' {
      assert t[1] == s[1];
      QuoteEndLocal(q, s[2..], t[2..]);
    } else if s[0] == q {
      assert t[1] == s[1];
      if s[1] == q {
        QuoteEndLocal(q, s[2..], t[2..]);
      }
    } else {
      QuoteEndLocal(q, s[1..], t[1..]);
    }
  }

  // -------------------------------------------------------------- tuple lists

  /** The whitespace of `u8::is_ascii_whitespace`: no vertical tab. */
  predicate IsAsciiSpace(c: char) {
    c == ' ' || c == '\t' || c == '\n' || c == '\r' || c == 12 as char
  }

  function SkipSpace(s: string): (r: string)
    ensures |r| <= |s| && (r != "" ==> !IsAsciiSpace(r[0]))
  {
    if s != "" && IsAsciiSpace(s[0]) then SkipSpace(s[1..]) else s
  }

  /** Where the parenthesised group around `s`, `depth` levels deep, ends. */
  function GroupEnd(s: string, depth: nat): (r: Option<nat>)
    ensures r.Some? ==> 1 <= r.value <= |s|
  {
    if s == "" then None
    else if IsQuote(s[0]) then
      var k := 1 + QuoteEnd(s[0], s[1..]);
      Longer(GroupEnd(s[k..], depth), k)
    else if s[0] == '(' then Longer(GroupEnd(s[1..], depth + 1), 1)
    else if s[0] == ')' && depth <= 1 then if depth == 1 then Some(1) else None
    else if s[0] == ')' then Longer(GroupEnd(s[1..], depth - 1), 1)
    else Longer(GroupEnd(s[1..], depth), 1)
  }

  /** Balanced groups separated by commas, and nothing else. */
  predicate Clean(s: string)
    decreases |s|
  {
    var r := SkipSpace(s);
    && r != "" && r[0] == '('
    && var n := GroupEnd(r, 0);
      && n.Some?
      && var t := SkipSpace(r[n.value..]);
        t == "" || (t[0] == ',' && Clean(t[1..]))
  }

  /** The row texts of a clean tuple list. */
  function Groups(s: string): seq<string>
    requires Clean(s)
    decreases |s|
  {
    var r := SkipSpace(s);
    var n := GroupEnd(r, 0).value;
    var t := SkipSpace(r[n..]);
    [r[..n]] + if t == "" then [] else Groups(t[1..])
  }

  lemma {:induction false} SkipSpaceAppend(s: string, x: string)
    ensures SkipSpace(s) != "" ==> SkipSpace(s + x) == SkipSpace(s) + x
    ensures SkipSpace(s) == "" ==> SkipSpace(s + x) == SkipSpace(x)
  {
    if s == "" {
      assert s + x == x;
    } else if IsAsciiSpace(s[0]) {
      DropPrefix(s, x, 1);
      SkipSpaceAppend(s[1..], x);
    }
  }

  lemma {:induction false} GroupEndAppend(s: string, depth: nat, x: string)
    requires GroupEnd(s, depth).Some?
    ensures GroupEnd(s + x, depth) == GroupEnd(s, depth)
    decreases |s|
  {
    assert (s + x)[0] == s[0];
    if IsQuote(s[0]) {
      var k := 1 + QuoteEnd(s[0], s[1..]);
      DropPrefix(s, x, 1);
      QuoteEndLocal(s[0], s[1..], s[1..] + x);
      DropPrefix(s, x, k);
      GroupEndAppend(s[k..], depth, x);
    } else if s[0] != ')' || depth > 1 {
      DropPrefix(s, x, 1);
      GroupEndAppend(s[1..], if s[0] == '(' then depth + 1 else if s[0] == ')' then depth - 1 else depth, x);
    }
  }

  /** Clean tuple lists are closed under a comma in between, and the rows just follow each other. */
  lemma {:induction false} CleanJoin(s: string, x: string)
    requires Clean(s) && Clean(x)
    ensures Clean(s + "," + x)
    ensures Groups(s + "," + x) == Groups(s) + Groups(x)
    decreases |s|
  {
    var tail := "," + x;
    Assoc(s, ",", x);
    SkipSpaceAppend(s, tail);
    var r := SkipSpace(s);
    GroupEndAppend(r, 0, tail);
    var n := GroupEnd(r, 0).value;
    DropPrefix(r, tail, n);
    assert (r + tail)[..n] == r[..n];
    SkipSpaceAppend(r[n..], tail);
    var t := SkipSpace(r[n..]);
    if t == "" {
      assert tail[1..] == x;
      assert [r[..n]] + [] + Groups(x) == [r[..n]] + Groups(x);
    } else {
      DropPrefix(t, tail, 1);
      Assoc(t[1..], ",", x);
      CleanJoin(t[1..], x);
      Assoc([r[..n]], Groups(t[1..]), Groups(x));
    }
  }

  /** `GroupEnd` as an index into the whole text. */
  function GroupEndAt(b: string, i: nat, depth: nat): Option<nat>
    requires i <= |b|
  {
    Longer(GroupEnd(b[i..], depth), i)
  }

  lemma GroupTurn(b: string, i: nat, depth: nat)
    requires i < |b|
    ensures IsQuote(b[i]) ==>
              GroupEndAt(b, i, depth) == GroupEndAt(b, i + 1 + QuoteEnd(b[i], b[i + 1..]), depth)
    ensures b[i] == '(' ==> GroupEndAt(b, i, depth) == GroupEndAt(b, i + 1, depth + 1)
    ensures b[i] == ')' && depth > 1 ==> GroupEndAt(b, i, depth) == GroupEndAt(b, i + 1, depth - 1)
    ensures b[i] == ')' && depth == 1 ==> GroupEndAt(b, i, depth) == Some(i + 1)
    ensures !IsQuote(b[i]) && b[i] != '(' && b[i] != ')' ==> GroupEndAt(b, i, depth) == GroupEndAt(b, i + 1, depth)
  {
    assert b[i..][1..] == b[i + 1..];
    if IsQuote(b[i]) {
      var k := 1 + QuoteEnd(b[i], b[i + 1..]);
      assert b[i..][k..] == b[i + k..];
    }
  }

  method FindGroupEnd(b: string, start: nat) returns (r: Option<nat>)
    requires start < |b| && b[start] == '('
    ensures r == GroupEndAt(b, start, 0)
  {
    var i, depth := start, 0;
    while i < |b|
      invariant start <= i <= |b| && 0 <= depth && (i == start || depth >= 1)
      invariant GroupEndAt(b, start, 0) == GroupEndAt(b, i, depth)
    {
      GroupTurn(b, i, depth);
      if IsQuote(b[i]) {
        i := SkipQuoted(b, i);
      } else if b[i] == '(' {
        depth, i := depth + 1, i + 1;
      } else if b[i] == ')' {
        depth, i := depth - 1, i + 1;
        if depth == 0 {
          return Some(i);
        }
      } else {
        i := i + 1;
      }
    }
    return None;
  }

  method SkipSpaces(b: string, start: nat) returns (i: nat)
    requires start <= |b|
    ensures start <= i <= |b| && b[i..] == SkipSpace(b[start..])
  {
    i := start;
    while i < |b| && IsAsciiSpace(b[i])
      invariant start <= i <= |b| && SkipSpace(b[i..]) == SkipSpace(b[start..])
    {
      assert b[i..][1..] == b[i + 1..];
      i := i + 1;
    }
  }

  method TuplesAreClean(s: string) returns (clean: bool)
    ensures clean == Clean(s)
  {
    var i := 0;
    assert s[0..] == s;
    while true
      invariant i <= |s| && Clean(s) == Clean(s[i..])
      decreases |s| - i
    {
      var j := SkipSpaces(s, i);
      if j >= |s| || s[j] != '(' {
        return false;
      }
      var e := FindGroupEnd(s, j);
      if e.None? {
        return false;
      }
      var k := SkipSpaces(s, e.value);
      CleanTurn(s, i, j, e.value, k);
      if k >= |s| {
        return true;
      }
      if s[k] != ',' {
        return false;
      }
      i := k + 1;
    }
  }

  lemma CleanTurn(s: string, i: nat, j: nat, e: nat, k: nat)
    requires i <= j < e <= k <= |s|
    requires s[j..] == SkipSpace(s[i..]) && s[j] == '('
    requires GroupEndAt(s, j, 0) == Some(e)
    requires s[k..] == SkipSpace(s[e..])
    ensures Clean(s[i..]) <==> k == |s| || (s[k] == ',' && Clean(s[k + 1..]))
  {
    assert s[j..][e - j..] == s[e..];
    if k < |s| {
      assert s[k..][1..] == s[k + 1..];
    }
  }

  // -------------------------------------------------------------- the VALUES cut

  predicate ValuesAt(s: string, i: nat)
    requires i < |s|
  {
    && (s[i] == 'V' || s[i] == 'v')
    && AtWord(s[i..], "VALUES")
    && (i == 0 || !IsIdent(s[i - 1]))
  }

  /** Just past the first `VALUES` keyword outside quotes and parentheses. */
  function FindValues(s: string, i: nat, depth: int): (r: Option<nat>)
    requires i <= |s|
    ensures r.Some? ==> i + 6 <= r.value <= |s|
    decreases |s| - i
  {
    if i == |s| then None
    else if IsQuote(s[i]) then FindValues(s, i + 1 + QuoteEnd(s[i], s[i + 1..]), depth)
    else if s[i] == '(' then FindValues(s, i + 1, depth + 1)
    else if s[i] == ')' then FindValues(s, i + 1, depth - 1)
    else if depth == 0 && ValuesAt(s, i) then Some(i + 6)
    else FindValues(s, i + 1, depth)
  }

  predicate IsInsert(s: string) {
    AtWord(s, "INSERT") || AtWord(s, "REPLACE")
  }

  function SplitInsert(stmt: string): (r: Option<Cut>)
    ensures r.Some? ==> Clean(r.value.tuples)
  {
    if !IsInsert(stmt) then None
    else
      match FindValues(stmt, 0, 0)
      case None => None
      case Some(ve) =>
        var prefix, tuples := TrimEnd(stmt[..ve]), TrimStart(stmt[ve..]);
        if !StartsWith(tuples, "(") || !Clean(tuples) then None
        else Some(Cut(prefix, tuples))
  }

  method SplitInsertAt(stmt: string) returns (r: Option<Cut>)
    ensures r == SplitInsert(stmt)
  {
    if !IsInsert(stmt) {
      return None;
    }
    var i, depth := 0, 0;
    var valuesEnd := None;
    while i < |stmt|
      invariant i <= |stmt| && valuesEnd.None?
      invariant FindValues(stmt, 0, 0) == FindValues(stmt, i, depth)
    {
      var b := stmt[i];
      if IsQuote(b) {
        i := SkipQuoted(stmt, i);
      } else if b == '(' {
        depth, i := depth + 1, i + 1;
      } else if b == ')' {
        depth, i := depth - 1, i + 1;
      } else if depth == 0 && ValuesAt(stmt, i) {
        valuesEnd := Some(i + 6);
        break;
      } else {
        i := i + 1;
      }
    }
    if valuesEnd.None? {
      return None;
    }
    var ve := valuesEnd.value;
    var prefix, tuples := TrimEnd(stmt[..ve]), TrimStart(stmt[ve..]);
    if !StartsWith(tuples, "(") {
      return None;
    }
    var clean := TuplesAreClean(tuples);
    return if clean then Some(Cut(prefix, tuples)) else None;
  }

  /** The keyword is found at the same place in any text that agrees up to it. */
  lemma {:induction false} FindValuesLocal(s: string, t: string, i: nat, depth: int)
    requires i <= |s| && FindValues(s, i, depth).Some?
    requires var ve := FindValues(s, i, depth).value;
             ve < |t| && t[..ve] == s[..ve] && !IsIdent(t[ve])
    ensures FindValues(t, i, depth) == FindValues(s, i, depth)
    decreases |s| - i
  {
    hide QuoteEnd;
    var ve := FindValues(s, i, depth).value;
    assert forall k :: 0 <= k < ve ==> s[..ve][k] == s[k] && t[..ve][k] == t[k];
    if IsQuote(s[i]) {
      QuoteEndLocal(s[i], s[i + 1..], t[i + 1..]);
      FindValuesLocal(s, t, i + 1 + QuoteEnd(s[i], s[i + 1..]), depth);
    } else if s[i] == '(' || s[i] == ')' {
      FindValuesLocal(s, t, i + 1, if s[i] == '(' then depth + 1 else depth - 1);
    } else if depth == 0 && ValuesAt(s, i) {
      assert forall k :: 0 <= k < 6 ==> t[i..][k] == s[i..][k];
      assert t[i..][6] == t[ve];
    } else {
      if depth == 0 && ValuesAt(t, i) {
        assert forall k :: 0 <= k < 6 ==> t[i..][k] == s[i..][k];
        assert s[i..][6] == t[i..][6];
      }
      FindValuesLocal(s, t, i + 1, depth);
    }
  }

  /** Only what the `VALUES` keyword closes can be cut off: the first word is inside the prefix. */
  lemma ValuesAfterVerb(s: string)
    requires IsInsert(s) && FindValues(s, 0, 0).Some?
    ensures FindValues(s, 0, 0).value > 8
  {
    var ve := FindValues(s, 0, 0).value;
    if AtWord(s, "INSERT") {
      assert Upper(s[0]) == 'I' && Upper(s[1]) == 'N' && Upper(s[2]) == 'S'
          && Upper(s[3]) == 'E' && Upper(s[4]) == 'R' && Upper(s[5]) == 'T';
    } else {
      assert Upper(s[0]) == 'R' && Upper(s[1]) == 'E' && Upper(s[2]) == 'P'
          && Upper(s[3]) == 'L' && Upper(s[4]) == 'A' && Upper(s[5]) == 'C';
    }
    assert FindValues(s, 0, 0) == FindValues(s, 1, 0) == FindValues(s, 2, 0) == FindValues(s, 3, 0);
    assert FindValues(s, 3, 0) == FindValues(s, 4, 0);
  }

  /** Where an insert is cut. */
  lemma PrefixIs(stmt: string)
    requires SplitInsert(stmt).Some?
    ensures var ve := FindValues(stmt, 0, 0);
            IsInsert(stmt) && ve.Some? && ve.value <= |stmt|
            && SplitInsert(stmt).value.prefix == TrimEnd(stmt[..ve.value])
    ensures var c := SplitInsert(stmt).value; Clean(c.tuples) && StartsWith(c.tuples, "(")
  {
    hide FindValues, Clean, IsInsert, TrimEnd, TrimStart;
  }

  lemma NothingToTrim(s: string)
    requires s != "" && Upper(s[|s| - 1]) == 'S'
    ensures TrimEnd(s) == s
  {
  }

  /** The prefix of an insert ends right behind the keyword, so nothing is trimmed off it. */
  lemma {:induction false} PrefixEnds(stmt: string)
    requires SplitInsert(stmt).Some?
    ensures var ve := FindValues(stmt, 0, 0);
            ve.Some? && 8 < ve.value <= |stmt|
            && SplitInsert(stmt).value.prefix == stmt[..ve.value]
    ensures TrimEnd(SplitInsert(stmt).value.prefix) == SplitInsert(stmt).value.prefix
  {
    hide SplitInsert, FindValues, IsInsert, TrimEnd;
    PrefixIs(stmt);
    ValuesAfterVerb(stmt);
    ValuesKeyword(stmt, 0, 0);
    NothingToTrim(stmt[..FindValues(stmt, 0, 0).value]);
  }

  lemma {:induction false} SplitFrom(t: string, ve: nat, tuples: string)
    requires IsInsert(t) && FindValues(t, 0, 0) == Some(ve) && ve < |t|
    requires TrimEnd(t[..ve]) == t[..ve] && t[ve..] == " " + tuples
    requires Clean(tuples) && StartsWith(tuples, "(")
    ensures SplitInsert(t) == Some(Cut(t[..ve], tuples))
  {
    hide FindValues, Clean, IsInsert;
    assert Blank(" ");
    TrimStartUnique(" ", tuples);
  }

  /** The statement's verb is in front of the keyword. */
  lemma SameVerb(s: string, t: string)
    requires IsInsert(s) && |s| > 8 && |t| > 8 && forall k :: 0 <= k < 8 ==> t[k] == s[k]
    ensures IsInsert(t)
  {
  }

  lemma RebuiltText(stmt: string, ve: nat, tuples: string)
    requires 8 < ve <= |stmt|
    ensures var t := stmt[..ve] + " " + tuples;
            && ve < |t| && t[..ve] == stmt[..ve] && t[ve] == ' ' && t[ve..] == " " + tuples
            && forall k :: 0 <= k < 8 ==> t[k] == stmt[k]
  {
  }

  /**
    Stability: an insert rebuilt from its own prefix with any other clean tuple
    list is cut back into exactly that prefix and that list.
  */
  lemma {:induction false} SplitRebuilt(stmt: string, tuples: string)
    requires SplitInsert(stmt).Some?
    requires Clean(tuples) && StartsWith(tuples, "(")
    ensures SplitInsert(SplitInsert(stmt).value.prefix + " " + tuples)
         == Some(Cut(SplitInsert(stmt).value.prefix, tuples))
  {
    PrefixIs(stmt);
    PrefixEnds(stmt);
    hide SplitInsert, FindValues, Clean, IsInsert, TrimEnd;
    var ve := FindValues(stmt, 0, 0).value;
    var t := stmt[..ve] + " " + tuples;
    RebuiltText(stmt, ve, tuples);
    SameVerb(stmt, t);
    FindValuesLocal(stmt, t, 0, 0);
    SplitFrom(t, ve, tuples);
  }

  lemma {:induction false} ValuesKeyword(s: string, i: nat, depth: int)
    requires i <= |s| && FindValues(s, i, depth).Some?
    ensures var ve := FindValues(s, i, depth).value; Upper(s[ve - 1]) == 'S'
    decreases |s| - i
  {
    if IsQuote(s[i]) {
      ValuesKeyword(s, i + 1 + QuoteEnd(s[i], s[i + 1..]), depth);
    } else if s[i] == '(' || s[i] == ')' {
      ValuesKeyword(s, i + 1, if s[i] == '(' then depth + 1 else depth - 1);
    } else if depth == 0 && ValuesAt(s, i) {
      assert Upper(s[i..][5]) == Upper("VALUES"[5]);
    } else {
      ValuesKeyword(s, i + 1, depth);
    }
  }

  /** Two inserts with one prefix, glued with a comma, split back into that prefix and both lists. */
  lemma SplitGlued(a: string, b: string)
    requires SplitInsert(a).Some? && SplitInsert(b).Some?
    requires SplitInsert(a).value.prefix == SplitInsert(b).value.prefix
    ensures var p, ta, tb := SplitInsert(a).value.prefix, SplitInsert(a).value.tuples, SplitInsert(b).value.tuples;
            && SplitInsert(p + " " + ta + "," + tb) == Some(Cut(p, ta + "," + tb))
            && Groups(ta + "," + tb) == Groups(ta) + Groups(tb)
  {
    PrefixIs(a);
    PrefixIs(b);
    hide SplitInsert, Clean, Groups;
    var p, ta, tb := SplitInsert(a).value.prefix, SplitInsert(a).value.tuples, SplitInsert(b).value.tuples;
    CleanJoin(ta, tb);
    AssocFour(p + " ", ta, ",", tb);
    assert (ta + "," + tb)[0] == ta[0];
    SplitRebuilt(a, ta + "," + tb);
  }
}
