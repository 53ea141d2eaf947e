/**
  What a line of known_hosts must look like to hold an entry (`parse` in
  src-tauri/src/ssh_known_hosts.rs), said without the parser.
*/
module HostLines {
  import opened Text
  import opened KnownHosts

  // ------------------------------------------------------------------------ ports

  predicate AllZeros(s: string) {
    forall i :: 0 <= i < |s| ==> s[i] == '0'
  }

  /** A port as it may be written: its decimal digits, perhaps behind zeros, perhaps behind a plus. */
  ghost predicate IsPort(s: string, port: nat) {
    exists plus: string, zeros: string ::
      (plus == "" || plus == "+") && AllZeros(zeros) && s == plus + (zeros + Digits(port))
  }

  lemma {:induction false} DigitsAre(t: string) returns (zeros: string)
    requires t != "" && AllDigits(t)
    ensures AllZeros(zeros) && t == zeros + Digits(NumberOf(t))
  {
    var f, d := t[..|t| - 1], t[|t| - 1] as int - '0' as int;
    assert t == f + [t[|t| - 1]] && IsDigit(t[|t| - 1]);
    if f == "" {
      zeros := "";
      assert NumberOf(f) == 0 && NumberOf(t) == d;
    } else {
      zeros := DigitsAre(f);
      var n := NumberOf(f);
      if n == 0 {
        zeros := zeros + "0";
        assert Digits(0) == "0" && NumberOf(t) == d;
      } else {
        assert NumberOf(t) == n * 10 + d && NumberOf(t) >= 10;
        assert NumberOf(t) / 10 == n && NumberOf(t) % 10 == d;
        assert Digits(NumberOf(t)) == Digits(n) + [t[|t| - 1]];
      }
    }
  }

  lemma {:induction false} ZerosWeighNothing(zeros: string, s: string)
    requires AllZeros(zeros) && AllDigits(s)
    ensures AllDigits(zeros + s) && NumberOf(zeros + s) == NumberOf(s)
    decreases |zeros| + |s|
  {
    var t := zeros + s;
    if s != "" {
      ZerosWeighNothing(zeros, s[..|s| - 1]);
      assert t[..|t| - 1] == zeros + s[..|s| - 1];
    } else if zeros != "" {
      ZerosWeighNothing(zeros[..|zeros| - 1], "");
      assert t[..|t| - 1] == zeros[..|zeros| - 1] + "";
    }
  }

  /** The parser takes exactly the texts of ports. */
  lemma PortIff(s: string, port: Port)
    ensures ParsePort(s) == Some(port) <==> IsPort(s, port)
  {
    if ParsePort(s) == Some(port) {
      var t := if |s| > 1 && s[0] == '+' then s[1..] else s;
      var plus := if |s| > 1 && s[0] == '+' then "+" else "";
      var zeros := DigitsAre(t);
      assert s == plus + t;
    }
    if IsPort(s, port) {
      var plus: string, zeros: string :|
        (plus == "" || plus == "+") && AllZeros(zeros) && s == plus + (zeros + Digits(port));
      var t := zeros + Digits(port);
      DigitsRead(port);
      ZerosWeighNothing(zeros, Digits(port));
      assert IsDigit(t[0]) && (plus == "+" ==> s[1..] == t) && (plus == "" ==> s == t);
    }
  }

  // ------------------------------------------------------------------------ lines

  predicate NoSpace(s: string) {
    forall i :: 0 <= i < |s| ==> !IsSpace(s[i])
  }

  /** The line is blanks, host, colon, port, a blank, and a text that holds the key. */
  ghost predicate Reads<Key>(c: Codec<Key>, line: string, hp: HostPort, key: Key) {
    exists left: string, port: string, blank: char, text: string ::
      Shape(c, line, hp, key, left, port, blank, text)
  }

  ghost predicate Shape<Key>(c: Codec<Key>, line: string, hp: HostPort, key: Key,
                             left: string, port: string, blank: char, text: string) {
    && line == left + (hp.host + ":" + port) + ([blank] + text)
    && Blank(left) && IsSpace(blank)
    && NoSpace(hp.host) && (hp.host != "" ==> hp.host[0] != '#') && IsPort(port, hp.port)
    && Trim(text) != "" && c.decode(Trim(text)) == Some(key)
  }

  lemma {:induction false} RSplitIs(s: string)
    ensures var r := RSplitColon(s);
            if r.None? then ':' !in s else s == r.value.0 + ":" + r.value.1 && ':' !in r.value.1
    decreases |s|
  {
    if s != "" && s[|s| - 1] != ':' {
      RSplitIs(s[..|s| - 1]);
      assert s == s[..|s| - 1] + [s[|s| - 1]];
    } else if s != "" {
      assert s == s[..|s| - 1] + ":" + "";
    }
  }

  lemma PortIsPlain(port: string, n: Port)
    requires IsPort(port, n)
    ensures NoSpace(port) && ':' !in port && port != ""
  {
    var plus: string, zeros: string :|
      (plus == "" || plus == "+") && AllZeros(zeros) && port == plus + (zeros + Digits(n));
    DigitsRead(n);
    PortReads(n);
    hide Digits, NumberOf;
    forall i | 0 <= i < |port| ensures !IsSpace(port[i]) && port[i] != ':' {
      var k := i - |plus|;
      if k >= |zeros| {
        assert port[i] == Digits(n)[k - |zeros|];
      } else if k >= 0 {
        assert port[i] == zeros[k];
      }
    }
  }

  /** The trimmed line: trimming takes the blanks in front and those behind the text. */
  lemma TrimmedLine(left: string, place: string, blank: char, text: string) returns (core: string)
    requires Blank(left) && NoSpace(place) && place != "" && IsSpace(blank) && Trim(text) != ""
    ensures Trim(left + place + ([blank] + text)) == place + ([blank] + core) && Trim(core) == Trim(text)
  {
    var a, b := TrimSplits(text);
    core := a + Trim(text);
    assert text == core + b;
    var t := place + ([blank] + core);
    assert Tight(t) by {
      assert t[0] == place[0] && t[|t| - 1] == Trim(text)[|Trim(text)| - 1];
    }
    assert left + place + ([blank] + text) == left + t + b;
    TrimPadded(left, t, b);
    TrimPadded(a, Trim(text), "");
    assert a + Trim(text) + "" == core;
  }

  /** How the parser comes to an entry. */
  lemma ParsedWith<Key>(c: Codec<Key>, line: string, n: nat, hp: HostPort, port: string, key: Key)
    requires var t := Trim(line);
             && t != "" && t[0] != '#' && n < |t| && FindFirst(t, IsSpace) == Some(n)
             && RSplitColon(t[..n]) == Some((hp.host, port)) && ParsePort(port) == Some(hp.port)
             && c.decode(Trim(t[n + 1..])) == Some(key)
    ensures ParseLine(c, line) == Some((hp, key))
  {
    hide Trim, RSplitColon, ParsePort, FindFirst, IsSpace;
  }

  lemma ShapeParses<Key>(c: Codec<Key>, line: string, hp: HostPort, key: Key,
                         left: string, port: string, blank: char, text: string)
    requires Shape(c, line, hp, key, left, port, blank, text)
    ensures ParseLine(c, line) == Some((hp, key))
  {
    hide Trim, RSplitColon, ParsePort, IsPort, ParseLine, FindFirst;
    var place := hp.host + ":" + port;
    PortIsPlain(port, hp.port);
    PortIff(port, hp.port);
    assert NoSpace(place) && place[0] != '#';
    var core := TrimmedLine(left, place, blank, text);
    var t := place + ([blank] + core);
    SpaceAt(place, blank, core);
    ColonSplits(hp.host, port);
    assert t[..|place|] == place && t[|place| + 1..] == core && t[0] == place[0];
    ParsedWith(c, line, |place|, hp, port, key);
  }

  lemma SpaceAt(place: string, blank: char, core: string)
    requires NoSpace(place) && IsSpace(blank)
    ensures FindFirst(place + ([blank] + core), IsSpace) == Some(|place|)
  {
    var t := place + ([blank] + core);
    assert t[|place|] == blank && forall i :: 0 <= i < |place| ==> t[i] == place[i];
    FindIs(t, IsSpace, |place|);
  }

  lemma ParsedHas<Key>(c: Codec<Key>, line: string, hp: HostPort, key: Key) returns (n: nat, port: string)
    requires ParseLine(c, line) == Some((hp, key))
    ensures var t := Trim(line);
            && t != "" && t[0] != '#' && n < |t| && FindFirst(t, IsSpace) == Some(n)
            && RSplitColon(t[..n]) == Some((hp.host, port)) && ParsePort(port) == Some(hp.port)
            && c.decode(Trim(t[n + 1..])) == Some(key)
  {
    hide Trim, RSplitColon, ParsePort, FindFirst, IsSpace;
    var t := Trim(line);
    n := FindFirst(t, IsSpace).value;
    port := RSplitColon(t[..n]).value.1;
  }

  lemma ParsedShape<Key>(c: Codec<Key>, line: string, hp: HostPort, key: Key)
    requires ParseLine(c, line) == Some((hp, key))
    ensures Reads(c, line, hp, key)
  {
    hide Trim, RSplitColon, ParsePort, IsPort, ParseLine, FindFirst;
    var left, right := TrimSplits(line);
    var t := Trim(line);
    var n, port := ParsedHas(c, line, hp, key);
    RSplitIs(t[..n]);
    PortIff(port, hp.port);
    var rest := t[n + 1..];
    var text := rest + right;
    assert rest != "" && !IsSpace(rest[|rest| - 1]);
    BlankBehind(rest, right);
    ShapeText(line, left, t, right, n, hp.host, port);
    assert Shape(c, line, hp, key, left, port, t[n], text);
  }

  lemma ShapeText(line: string, left: string, t: string, right: string, n: nat, host: string, port: string)
    requires line == left + t + right && n < |t| && t[..n] == host + ":" + port
    requires forall i :: 0 <= i < n ==> !IsSpace(t[i])
    ensures line == left + (host + ":" + port) + ([t[n]] + (t[n + 1..] + right))
    ensures NoSpace(host) && (host != "" ==> host[0] == t[0])
  {
    assert t == t[..n] + ([t[n]] + t[n + 1..]);
    assert forall i :: 0 <= i < |host| ==> host[i] == t[..n][i] == t[i];
  }

  lemma BlankBehind(s: string, right: string)
    requires s != "" && !IsSpace(s[|s| - 1]) && Blank(right)
    ensures Trim(s + right) == Trim(s) && Trim(s) != ""
  {
    var a, b := TrimSplits(s);
    assert s[|s| - 1] == (a + Trim(s) + b)[|s| - 1];
    assert b == "";
    assert s + right == a + Trim(s) + right;
    TrimPadded(a, Trim(s), right);
  }

  /** A line holds an entry exactly when it has that shape. */
  lemma LineIff<Key>(c: Codec<Key>, line: string, hp: HostPort, key: Key)
    ensures ParseLine(c, line) == Some((hp, key)) <==> Reads(c, line, hp, key)
  {
    if ParseLine(c, line) == Some((hp, key)) {
      ParsedShape(c, line, hp, key);
    }
    if Reads(c, line, hp, key) {
      var left: string, port: string, blank: char, text: string :|
        Shape(c, line, hp, key, left, port, blank, text);
      ShapeParses(c, line, hp, key, left, port, blank, text);
    }
  }
}
