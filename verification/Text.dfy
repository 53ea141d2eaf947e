/**
  Byte strings and the small scanning helpers that the importer, the dump writer
  and the DDL rewriters share. A `string` stands for a byte string here: one
  character per byte.
*/
module Text {

  datatype Option<+T> = None | Some(value: T)

  // ---------------------------------------------------------------- whitespace

  predicate IsSpace(c: char) {
    c == ' ' || c == '\t' || c == '\n' || c == '\r' || c == 11 as char || c == 12 as char
  }

  function TrimStart(s: string): string {
    if s == "" then s
    else if IsSpace(s[0]) then TrimStart(s[1..])
    else s
  }

  function TrimEnd(s: string): string {
    if s == "" then s
    else if IsSpace(s[|s| - 1]) then TrimEnd(s[..|s| - 1])
    else s
  }

  function Trim(s: string): string {
    TrimEnd(TrimStart(s))
  }

  predicate Blank(s: string) {
    forall i :: 0 <= i < |s| ==> IsSpace(s[i])
  }

  /** Neither end is whitespace, and there is something in between. */
  predicate Tight(s: string) {
    s != "" && !IsSpace(s[0]) && !IsSpace(s[|s| - 1])
  }

  lemma TrimStartUnique(pad: string, s: string)
    requires Blank(pad)
    requires s == "" || !IsSpace(s[0])
    ensures TrimStart(pad + s) == s
  {
    if pad == "" {
      assert pad + s == s;
    } else {
      assert (pad + s)[1..] == pad[1..] + s;
      TrimStartUnique(pad[1..], s);
    }
  }

  lemma TrimEndUnique(s: string, pad: string)
    requires Blank(pad)
    requires s == "" || !IsSpace(s[|s| - 1])
    ensures TrimEnd(s + pad) == s
  {
    if pad == "" {
      assert s + pad == s;
    } else {
      assert (s + pad)[..|s + pad| - 1] == s + pad[..|pad| - 1];
      TrimEndUnique(s, pad[..|pad| - 1]);
    }
  }

  /** Whitespace around a tight text is exactly what `Trim` removes. */
  lemma TrimPadded(left: string, s: string, right: string)
    requires Blank(left) && Blank(right)
    requires s == "" || Tight(s)
    ensures Trim(left + s + right) == s
  {
    if s == "" {
      assert left + s + right == (left + right) + "";
      TrimStartUnique(left + right, "");
    } else {
      assert left + s + right == left + (s + right);
      TrimStartUnique(left, s + right);
      TrimEndUnique(s, right);
    }
  }

  lemma TrimStartSplits(s: string) returns (pad: string)
    ensures s == pad + TrimStart(s) && Blank(pad)
    ensures TrimStart(s) == "" || !IsSpace(TrimStart(s)[0])
  {
    if s != "" && IsSpace(s[0]) {
      var p := TrimStartSplits(s[1..]);
      pad := [s[0]] + p;
      assert s == [s[0]] + s[1..];
    } else {
      pad := "";
    }
  }

  lemma TrimEndSplits(s: string) returns (pad: string)
    ensures s == TrimEnd(s) + pad && Blank(pad)
    ensures TrimEnd(s) == "" || !IsSpace(TrimEnd(s)[|TrimEnd(s)| - 1])
  {
    if s != "" && IsSpace(s[|s| - 1]) {
      var p := TrimEndSplits(s[..|s| - 1]);
      pad := p + [s[|s| - 1]];
      assert s == s[..|s| - 1] + [s[|s| - 1]];
    } else {
      pad := "";
    }
  }

  /** What `Trim` removes, and what is left. */
  lemma TrimSplits(s: string) returns (left: string, right: string)
    ensures s == left + Trim(s) + right && Blank(left) && Blank(right)
    ensures Trim(s) == "" || Tight(Trim(s))
  {
    left := TrimStartSplits(s);
    right := TrimEndSplits(TrimStart(s));
  }

  /** Whitespace in front does not matter to `Trim`. */
  lemma {:induction false} TrimPads(pad: string, s: string)
    requires Blank(pad)
    ensures Trim(pad + s) == Trim(s)
  {
    if pad == "" {
      assert pad + s == s;
    } else {
      assert (pad + s)[1..] == pad[1..] + s;
      TrimPads(pad[1..], s);
    }
  }

  // ------------------------------------------------------------------ matching

  predicate IsDigit(c: char) { '0' <= c <= '9' }

  predicate IsIdent(c: char) {
    IsDigit(c) || 'a' <= c <= 'z' || 'A' <= c <= 'Z' || c == '_'
  }

  function Upper(c: char): char {
    if 'a' <= c <= 'z' then ((c as int) - 32) as char else c
  }

  function UpperAll(s: string): (r: string)
    ensures |r| == |s| && forall i :: 0 <= i < |s| ==> r[i] == Upper(s[i])
  {
    seq(|s|, i requires 0 <= i < |s| => Upper(s[i]))
  }

  /** The exact match at the head of what is left of the input. */
  predicate At(rest: string, needle: string) {
    needle <= rest
  }

  /** A case-insensitive whole word at the head of what is left of the input. */
  predicate AtWord(rest: string, word: string) {
    && |word| <= |rest|
    && (forall k :: 0 <= k < |word| ==> Upper(rest[k]) == Upper(word[k]))
    && (|word| < |rest| ==> !IsIdent(rest[|word|]))
  }

  /** A word in any mixture of cases. */
  predicate Spells(text: string, word: string) {
    |text| == |word| && forall i :: 0 <= i < |word| ==>
      text[i] == word[i] || ('A' <= word[i] <= 'Z' && text[i] as int == word[i] as int + 32)
  }

  predicate StartsWith(s: string, p: string) {
    p <= s
  }

  predicate EndsWith(s: string, p: string) {
    |p| <= |s| && s[|s| - |p|..] == p
  }

  predicate Contains(s: string, p: string) {
    exists i {:trigger s[i..]} :: 0 <= i <= |s| && p <= s[i..]
  }

  predicate IsQuote(c: char) { c == '\'' || c == '"' || c == '`' }

  /** An index, moved. */
  function Longer(n: Option<nat>, k: nat): Option<nat> {
    match n
    case Some(v) => Some(v + k)
    case None => None
  }

  /** Index of the first wanted character. */
  function FindFirst(s: string, wanted: char -> bool): (r: Option<nat>)
    ensures r.Some? ==> r.value < |s| && wanted(s[r.value]) && forall i :: 0 <= i < r.value ==> !wanted(s[i])
    ensures r.None? ==> forall i :: 0 <= i < |s| ==> !wanted(s[i])
  {
    if s == "" then None
    else if wanted(s[0]) then Some(0)
    else Longer(FindFirst(s[1..], wanted), 1)
  }

  // ------------------------------------------------------------------- numbers

  /** The decimal text of a number. */
  function Digits(n: nat): string {
    if n < 10 then [('0' as int + n) as char] else Digits(n / 10) + [('0' as int + n % 10) as char]
  }

  // ------------------------------------------------------------------- joining

  function Join(parts: seq<string>, sep: string): string {
    if parts == [] then ""
    else if |parts| == 1 then parts[0]
    else parts[0] + sep + Join(parts[1..], sep)
  }

  function Flatten<T>(parts: seq<seq<T>>): seq<T> {
    if parts == [] then [] else parts[0] + Flatten(parts[1..])
  }

  lemma Assoc<T>(a: seq<T>, b: seq<T>, c: seq<T>)
    ensures a + b + c == a + (b + c)
  {
  }

  lemma AssocFour<T>(a: seq<T>, b: seq<T>, c: seq<T>, d: seq<T>)
    ensures a + b + c + d == a + (b + (c + d)) == a + (b + c + d)
  {
  }

  lemma DropPrefix<T>(a: seq<T>, b: seq<T>, n: nat)
    requires n <= |a|
    ensures (a + b)[n..] == a[n..] + b
  {
  }

  lemma TakeDrop<T>(a: seq<T>, n: nat, k: nat)
    requires k <= n <= |a|
    ensures a[..n][k..] == a[k..][..n - k]
  {
  }

  lemma {:induction false} FlattenAppend<T>(a: seq<seq<T>>, b: seq<seq<T>>)
    ensures Flatten(a + b) == Flatten(a) + Flatten(b)
  {
    if a == [] {
      assert a + b == b;
    } else {
      DropPrefix(a, b, 1);
      FlattenAppend(a[1..], b);
      Assoc(a[0], Flatten(a[1..]), Flatten(b));
    }
  }

  lemma {:induction false} JoinSnoc(parts: seq<string>, last: string, sep: string)
    requires parts != []
    ensures Join(parts + [last], sep) == Join(parts, sep) + sep + last
  {
    var all := parts + [last];
    if |parts| == 1 {
      assert all[1..] == [last];
    } else {
      assert all[1..] == parts[1..] + [last];
      JoinSnoc(parts[1..], last, sep);
      var a, j := parts[0] + sep, Join(parts[1..], sep);
      assert a + (j + sep + last) == a + j + sep + last;
    }
  }

  /** Doubles every `q`: how a quote inside a quoted span is written. */
  function Double(s: string, q: char): string {
    if s == "" then ""
    else (if s[0] == q then [q, q] else [s[0]]) + Double(s[1..], q)
  }

  lemma {:induction false} DoubleAppend(a: string, b: string, q: char)
    ensures Double(a + b, q) == Double(a, q) + Double(b, q)
  {
    if a == "" {
      assert a + b == b;
    } else {
      DropPrefix(a, b, 1);
      DoubleAppend(a[1..], b, q);
      Assoc(if a[0] == q then [q, q] else [a[0]], Double(a[1..], q), Double(b, q));
    }
  }
}
