/**
  The known_hosts store of src-tauri/src/ssh_known_hosts.rs: a map in memory and a
  text file that is appended to or rewritten, and the parser that loads it. The
  encoding of a key is a parameter; a key's fingerprint is another.
*/
module KnownHosts {
  import opened Text

  type Port = p: int | 0 <= p <= 65535

  datatype HostPort = HostPort(host: string, port: Port)

  /** How keys are written, read back and named. `decode` answers `None` for what is not a key. */
  datatype Codec<!Key(==)> = Codec(encode: Key -> string, decode: string -> Option<Key>, fingerprint: Key -> string)

  type Entries<Key> = map<HostPort, seq<Key>>

  datatype Verdict = Match | Mismatch | Unknown

  // ---------------------------------------------------------------------- parsing

  function Lines(text: string): seq<string> {
    if text == "" then []
    else
      match FindFirst(text, c => c == '\n')
      case Some(n) => [text[..n]] + Lines(text[n + 1..])
      case None => [text]
  }

  /** The text in front of the last colon and the text behind it. */
  function RSplitColon(s: string): Option<(string, string)> {
    if s == "" then None
    else if s[|s| - 1] == ':' then Some((s[..|s| - 1], ""))
    else
      match RSplitColon(s[..|s| - 1])
      case Some((a, b)) => Some((a, b + [s[|s| - 1]]))
      case None => None
  }

  predicate AllDigits(s: string) {
    forall i :: 0 <= i < |s| ==> IsDigit(s[i])
  }

  function NumberOf(s: string): nat
    requires AllDigits(s)
  {
    if s == "" then 0 else NumberOf(s[..|s| - 1]) * 10 + (s[|s| - 1] as int - '0' as int)
  }

  /** A 16-bit number in decimal, with an optional plus sign. */
  function ParsePort(s: string): Option<Port> {
    var t := if |s| > 1 && s[0] == '+' then s[1..] else s;
    if t == "" || !AllDigits(t) || NumberOf(t) > 65535 then None else Some(NumberOf(t))
  }

  /** The entry on a line; blank lines, comments and whatever is malformed hold none. */
  function ParseLine<Key>(c: Codec<Key>, line: string): Option<(HostPort, Key)> {
    var t := Trim(line);
    if t == "" || t[0] == '#' then None
    else
      match FindFirst(t, IsSpace)
      case None => None
      case Some(n) =>
        match RSplitColon(t[..n])
        case None => None
        case Some((host, portText)) =>
          match ParsePort(portText)
          case None => None
          case Some(port) =>
            match c.decode(Trim(t[n + 1..]))
            case None => None
            case Some(key) => Some((HostPort(host, port), key))
  }

  function KeysOf<Key>(m: Entries<Key>, hp: HostPort): seq<Key> {
    if hp in m then m[hp] else []
  }

  /** One more key for a host, behind the ones it has. */
  function Added<Key>(m: Entries<Key>, hp: HostPort, key: Key): Entries<Key> {
    m[hp := KeysOf(m, hp) + [key]]
  }

  function Noted<Key>(m: Entries<Key>, e: Option<(HostPort, Key)>): Entries<Key> {
    match e
    case Some((hp, key)) => Added(m, hp, key)
    case None => m
  }

  function Fold<Key>(c: Codec<Key>, m: Entries<Key>, lines: seq<string>): Entries<Key>
    decreases |lines|
  {
    if lines == [] then m else Fold(c, Noted(m, ParseLine(c, lines[0])), lines[1..])
  }

  function Parse<Key>(c: Codec<Key>, text: string): Entries<Key> {
    Fold(c, map[], Lines(text))
  }

  method ParseText<Key>(c: Codec<Key>, text: string) returns (m: Entries<Key>)
    ensures m == Parse(c, text)
  {
    m := map[];
    var lines := Lines(text);
    for k := 0 to |lines|
      invariant Fold(c, m, lines[k..]) == Parse(c, text)
    {
      assert lines[k..][0] == lines[k] && lines[k..][1..] == lines[k + 1..];
      m := Noted(m, ParseLine(c, lines[k]));
    }
  }

  // -------------------------------------------------------------------- what is written

  function EntryLine<Key>(c: Codec<Key>, hp: HostPort, key: Key): string {
    hp.host + ":" + Digits(hp.port) + " " + c.encode(key)
  }

  /** A host without whitespace that does not look like a comment. */
  predicate HostOk(host: string) {
    (forall i :: 0 <= i < |host| ==> !IsSpace(host[i])) && (host != "" ==> host[0] != '#')
  }

  predicate PlaceOk(hp: HostPort) {
    HostOk(hp.host)
  }

  /** What the key format guarantees: one trimmed line of text, read back as the same key. */
  ghost predicate CodecOk<Key(!new)>(c: Codec<Key>) {
    forall k: Key :: Tight(c.encode(k)) && '\n' !in c.encode(k) && c.decode(c.encode(k)) == Some(k)
  }

  lemma {:induction false} DigitsRead(n: nat)
    ensures Digits(n) != "" && AllDigits(Digits(n)) && NumberOf(Digits(n)) == n
  {
    if n >= 10 {
      DigitsRead(n / 10);
      var d := Digits(n);
      assert d[..|d| - 1] == Digits(n / 10);
    }
  }

  lemma {:induction false} ColonSplits(host: string, tail: string)
    requires ':' !in tail
    ensures RSplitColon(host + ":" + tail) == Some((host, tail))
    decreases |tail|
  {
    var s := host + ":" + tail;
    if tail == "" {
      assert s[..|s| - 1] == host && s[|s| - 1] == ':';
    } else {
      var front := tail[..|tail| - 1];
      assert s[..|s| - 1] == host + ":" + front && s[|s| - 1] == tail[|tail| - 1];
      ColonSplits(host, front);
      assert front + [tail[|tail| - 1]] == tail;
    }
  }

  lemma SpaceFound(head: string, tail: string)
    requires forall i :: 0 <= i < |head| ==> !IsSpace(head[i])
    ensures FindFirst(head + " " + tail, IsSpace) == Some(|head|)
  {
    var s := head + " " + tail;
    assert IsSpace(s[|head|]);
    assert forall i :: 0 <= i < |head| ==> s[i] == head[i];
    var r := FindFirst(s, IsSpace);
    assert r.Some? && r.value == |head|;
  }

  lemma {:induction false} PortReads(port: nat)
    requires port <= 65535
    ensures ParsePort(Digits(port)) == Some(port) && ':' !in Digits(port)
    ensures forall i :: 0 <= i < |Digits(port)| ==> !IsSpace(Digits(port)[i])
  {
    DigitsRead(port);
    assert IsDigit(Digits(port)[0]);
  }

  lemma PlaceText(hp: HostPort)
    requires PlaceOk(hp)
    ensures var t := hp.host + ":" + Digits(hp.port);
            && t != "" && t[0] != '#' && (forall i :: 0 <= i < |t| ==> !IsSpace(t[i]))
            && RSplitColon(t) == Some((hp.host, Digits(hp.port)))
  {
    PortReads(hp.port);
    ColonSplits(hp.host, Digits(hp.port));
  }

  /** A place, a blank, a text: the line holds that place and what the text decodes to. */
  lemma LineParts<Key>(c: Codec<Key>, hp: HostPort, text: string)
    requires PlaceOk(hp) && Tight(text)
    ensures var line := hp.host + ":" + Digits(hp.port) + " " + text;
            ParseLine(c, line) == match c.decode(text) case Some(key) => Some((hp, key)) case None => None
  {
    hide RSplitColon, ParsePort, Digits, HostOk;
    var place := hp.host + ":" + Digits(hp.port);
    var line := place + " " + text;
    PlaceText(hp);
    PortReads(hp.port);
    SpaceFound(place, text);
    assert line[0] == place[0] && line[|line| - 1] == text[|text| - 1];
    Trimmed(line);
    Trimmed(text);
    assert line[..|place|] == place && line[|place| + 1..] == text;
  }

  lemma Trimmed(s: string)
    requires Tight(s)
    ensures Trim(s) == s
  {
    TrimPadded("", s, "");
    assert "" + s + "" == s;
  }

  /** A written line reads back as the entry it was written for. */
  lemma LineReads<Key(!new)>(c: Codec<Key>, hp: HostPort, key: Key)
    requires CodecOk(c) && PlaceOk(hp)
    ensures ParseLine(c, EntryLine(c, hp, key)) == Some((hp, key))
    ensures '\n' !in EntryLine(c, hp, key)
  {
    PlaceHasNoBreak(hp);
    hide ParseLine, Digits, PlaceOk, Trim;
    LineParts(c, hp, c.encode(key));
  }

  lemma PlaceHasNoBreak(hp: HostPort)
    requires PlaceOk(hp)
    ensures '\n' !in hp.host + ":" + Digits(hp.port) + " "
  {
    PortReads(hp.port);
  }

  // ---------------------------------------------------------------------- the text

  /** Nothing is written on the last line yet. */
  predicate Terminated(text: string) {
    text == "" || text[|text| - 1] == '\n'
  }

  lemma FindIs(s: string, wanted: char -> bool, n: nat)
    requires n < |s| && wanted(s[n]) && forall i :: 0 <= i < n ==> !wanted(s[i])
    ensures FindFirst(s, wanted) == Some(n)
  {
    var r := FindFirst(s, wanted);
    if r.None? {
      assert false;
    }
  }

  lemma {:induction false} LineOff(line: string, rest: string)
    requires '\n' !in line
    ensures Lines(line + "\n" + rest) == [line] + Lines(rest)
  {
    var text := line + "\n" + rest;
    assert forall i :: 0 <= i < |line| ==> text[i] == line[i] && line[i] in line;
    FindIs(text, c => c == '\n', |line|);
    assert text[..|line|] == line && text[|line| + 1..] == rest;
  }

  lemma {:induction false} LinesAppend(a: string, b: string)
    requires Terminated(a)
    ensures Lines(a + b) == Lines(a) + Lines(b)
    decreases |a|
  {
    if a == "" {
      assert a + b == b;
    } else {
      var r := FindFirst(a, c => c == '\n');
      assert a[|a| - 1] == '\n';
      var n := r.value;
      var line, rest := a[..n], a[n + 1..];
      assert '\n' !in line;
      assert a == line + "\n" + rest && a + b == line + "\n" + (rest + b);
      LineOff(line, rest);
      LineOff(line, rest + b);
      LinesAppend(rest, b);
      Assoc([line], Lines(rest), Lines(b));
    }
  }

  lemma {:induction false} FoldAppend<Key>(c: Codec<Key>, m: Entries<Key>, a: seq<string>, b: seq<string>)
    ensures Fold(c, m, a + b) == Fold(c, Fold(c, m, a), b)
    decreases |a|
  {
    if a == [] {
      assert a + b == b;
    } else {
      DropPrefix(a, b, 1);
      FoldAppend(c, Noted(m, ParseLine(c, a[0])), a[1..], b);
    }
  }

  /** Appending one line to a terminated text adds exactly that line's entry. */
  lemma LineAppended<Key>(c: Codec<Key>, text: string, line: string)
    requires Terminated(text) && '\n' !in line
    ensures Terminated(text + (line + "\n"))
    ensures Parse(c, text + (line + "\n")) == Noted(Parse(c, text), ParseLine(c, line))
  {
    hide ParseLine, Noted;
    LinesAppend(text, line + "\n");
    LineOff(line, "");
    assert line + "\n" + "" == line + "\n" && [line] + [] == [line] && [line][1..] == [];
    FoldAppend(c, map[], Lines(text), [line]);
  }

  // --------------------------------------------------------------- what is in memory

  predicate EntriesOk<Key>(m: Entries<Key>) {
    forall hp :: hp in m ==> PlaceOk(hp) && m[hp] != []
  }

  lemma {:induction false} RSplitIsPrefix(s: string)
    ensures var r := RSplitColon(s);
            r.Some? ==> |r.value.0| < |s| && r.value.0 == s[..|r.value.0|]
  {
    if s != "" && s[|s| - 1] != ':' {
      var front := s[..|s| - 1];
      RSplitIsPrefix(front);
      var r := RSplitColon(front);
      if r.Some? {
        assert front[..|r.value.0|] == s[..|r.value.0|];
      }
    }
  }

  /** A place that was read is one that can be written. */
  lemma ParsedIsOk<Key>(c: Codec<Key>, line: string)
    ensures var e := ParseLine(c, line); e.Some? ==> PlaceOk(e.value.0)
  {
    var t := Trim(line);
    if ParseLine(c, line).Some? {
      var n := FindFirst(t, IsSpace).value;
      RSplitIsPrefix(t[..n]);
      var host := RSplitColon(t[..n]).value.0;
      assert forall i :: 0 <= i < |host| ==> host[i] == t[..n][i] == t[i];
    }
  }

  lemma {:induction false} FoldIsOk<Key>(c: Codec<Key>, m: Entries<Key>, lines: seq<string>)
    requires EntriesOk(m)
    ensures EntriesOk(Fold(c, m, lines))
    decreases |lines|
  {
    hide ParseLine;
    if lines != [] {
      ParsedIsOk(c, lines[0]);
      FoldIsOk(c, Noted(m, ParseLine(c, lines[0])), lines[1..]);
    }
  }

  /** Whatever the text, every host read from it is one that can be written. */
  lemma ParseIsOk<Key>(c: Codec<Key>, text: string)
    ensures EntriesOk(Parse(c, text))
  {
    FoldIsOk(c, map[], Lines(text));
  }

  /** The keys of a host whose fingerprint is not the given one. */
  function Without<Key>(c: Codec<Key>, keys: seq<Key>, fingerprint: string): seq<Key> {
    if keys == [] then []
    else (if c.fingerprint(keys[0]) != fingerprint then [keys[0]] else []) + Without(c, keys[1..], fingerprint)
  }

  function Removed<Key>(c: Codec<Key>, m: Entries<Key>, hp: HostPort, fingerprint: string): Entries<Key> {
    if hp !in m then m
    else if Without(c, m[hp], fingerprint) == [] then m - {hp}
    else m[hp := Without(c, m[hp], fingerprint)]
  }

  function Lookup<Key(==)>(m: Entries<Key>, hp: HostPort, key: Key): Verdict {
    if hp !in m then Unknown else if key in m[hp] then Match else Mismatch
  }

  // ---------------------------------------------------------------------- the store

  /** The line is an entry of that place. */
  predicate IsPlace<Key>(c: Codec<Key>, line: string, hp: HostPort) {
    match ParseLine(c, line)
    case Some((place, _)) => place == hp
    case None => false
  }

  /** Some line of the text is an entry of that place. */
  predicate HasPlace<Key(!new)>(c: Codec<Key>, text: string, hp: HostPort) {
    exists i :: 0 <= i < |Lines(text)| && IsPlace(c, Lines(text)[i], hp)
  }

  /** Some line of the text is an entry of that place with that key. */
  predicate HasKey<Key(!new)>(c: Codec<Key>, text: string, hp: HostPort, key: Key) {
    exists i :: 0 <= i < |Lines(text)| && ParseLine(c, Lines(text)[i]) == Some((hp, key))
  }

  lemma NotedHolds<Key>(m: Entries<Key>, e: Option<(HostPort, Key)>, hp: HostPort, key: Key)
    ensures hp in Noted(m, e) <==> hp in m || (e.Some? && e.value.0 == hp)
    ensures key in KeysOf(Noted(m, e), hp) <==> key in KeysOf(m, hp) || e == Some((hp, key))
  {
    if e.Some? && e.value.0 == hp {
      var keys := KeysOf(m, hp);
      assert forall k :: k in keys + [e.value.1] <==> k in keys || k == e.value.1;
    }
  }

  lemma {:induction false} FoldHolds<Key(!new)>(c: Codec<Key>, m: Entries<Key>, lines: seq<string>, hp: HostPort,
                                                key: Key)
    ensures hp in Fold(c, m, lines) <==> hp in m || exists i :: 0 <= i < |lines| && IsPlace(c, lines[i], hp)
    ensures key in KeysOf(Fold(c, m, lines), hp) <==>
              key in KeysOf(m, hp) || exists i :: 0 <= i < |lines| && ParseLine(c, lines[i]) == Some((hp, key))
    decreases |lines|
  {
    if lines != [] {
      hide ParseLine, Noted, KeysOf;
      var rest := lines[1..];
      var next := Noted(m, ParseLine(c, lines[0]));
      NotedHolds(m, ParseLine(c, lines[0]), hp, key);
      FoldHolds(c, next, rest, hp, key);
      assert forall i :: 0 <= i < |rest| ==> rest[i] == lines[i + 1];
      assert forall i :: 0 < i < |lines| ==> lines[i] == rest[i - 1];
    }
  }

  /** The map parsed from a text holds what the text's lines hold. */
  lemma ParseHolds<Key(!new)>(c: Codec<Key>, text: string, hp: HostPort, key: Key)
    ensures hp in Parse(c, text) <==> HasPlace(c, text, hp)
    ensures key in KeysOf(Parse(c, text), hp) <==> HasKey(c, text, hp, key)
  {
    FoldHolds(c, map[], Lines(text), hp, key);
  }

  class Store<Key(==,!new)> {
    const codec: Codec<Key>
    var entries: Entries<Key>
    /** The contents of the file; a missing file counts as an empty one. */
    var file: string

    /** The file says what the map says, and the next line can be appended to it. */
    ghost predicate Valid()
      reads this
    {
      CodecOk(codec) && EntriesOk(entries) && Parse(codec, file) == entries && Terminated(file)
    }

    constructor Load(codec: Codec<Key>, text: string)
      requires CodecOk(codec)
      ensures this.codec == codec && file == text && entries == Parse(codec, text) && EntriesOk(entries)
      ensures Terminated(text) ==> Valid()
    {
      var m := ParseText(codec, text);
      this.codec, entries, file := codec, m, text;
      ParseIsOk(codec, text);
    }

    method Verify(host: string, port: Port, key: Key) returns (v: Verdict)
      ensures v == Lookup(entries, HostPort(host, port), key)
      ensures Valid() ==>
                && (v == Unknown <==> !HasPlace(codec, file, HostPort(host, port)))
                && (v == Match <==> HasKey(codec, file, HostPort(host, port), key))
                && (v == Mismatch <==>
                      HasPlace(codec, file, HostPort(host, port)) && !HasKey(codec, file, HostPort(host, port), key))
    {
      ParseHolds(codec, file, HostPort(host, port), key);
      var hp := HostPort(host, port);
      if hp in entries {
        v := if key in entries[hp] then Match else Mismatch;
      } else {
        v := Unknown;
      }
    }

    /** Map and file both grow by one entry; they agree from then on exactly if the host can be written. */
    method Add(host: string, port: Port, key: Key)
      modifies this
      ensures entries == Added(old(entries), HostPort(host, port), key)
      ensures file == old(file) + (EntryLine(codec, HostPort(host, port), key) + "\n")
      ensures old(Valid()) && HostOk(host) ==> Valid()
      ensures old(Valid()) ==> (Parse(codec, file) == entries <==> HostOk(host))
    {
      hide CodecOk, Parse, EntryLine;
      var hp := HostPort(host, port);
      var line := EntryLine(codec, hp, key);
      if Valid() && HostOk(host) {
        LineReads(codec, hp, key);
        LineAppended(codec, file, line);
      }
      entries := Added(entries, hp, key);
      file := file + (line + "\n");
      ParseIsOk(codec, file);
      assert hp in entries;
    }

    /** Every entry written out, hosts in whatever order the map gives them. */
    method Snapshot() returns (text: string)
      ensures CodecOk(codec) && EntriesOk(entries) ==> Terminated(text) && Parse(codec, text) == entries
    {
      assert Parse(codec, "") == map[];
      hide CodecOk, Parse, PlaceOk;
      text := "";
      var left := entries;
      ghost var ok := CodecOk(codec) && EntriesOk(entries);
      while left != map[]
        invariant left.Keys <= entries.Keys && (forall hp :: hp in left ==> left[hp] == entries[hp])
        invariant ok ==> Terminated(text) && Parse(codec, text) == entries - left.Keys
        decreases |left|
      {
        var hp :| hp in left;
        OneHostLess(entries, left, hp);
        text := WriteHost(text, hp, left[hp]);
        left := left - {hp};
      }
      assert entries - left.Keys == entries;
    }

    method WriteHost(before: string, hp: HostPort, keys: seq<Key>) returns (text: string)
      ensures CodecOk(codec) && PlaceOk(hp) && keys != [] && Terminated(before) && hp !in Parse(codec, before) ==>
                Terminated(text) && Parse(codec, text) == Parse(codec, before)[hp := keys]
    {
      hide CodecOk, Parse, EntryLine, ParseLine, PlaceOk, Added, Terminated;
      text := before;
      ghost var ok := CodecOk(codec) && PlaceOk(hp) && Terminated(before) && hp !in Parse(codec, before);
      for k := 0 to |keys|
        invariant ok ==> Terminated(text)
        invariant ok ==>
                    Parse(codec, text) == if k == 0 then Parse(codec, before) else Parse(codec, before)[hp := keys[..k]]
      {
        var line := EntryLine(codec, hp, keys[k]);
        if ok {
          LineReads(codec, hp, keys[k]);
          LineAppended(codec, text, line);
          OneKeyMore(Parse(codec, before), hp, keys, k);
        }
        text := text + (line + "\n");
      }
      assert keys[..|keys|] == keys;
    }

    /** The file is rewritten whether or not a key was found. */
    method Remove(host: string, port: Port, fingerprint: string)
      modifies this
      ensures entries == Removed(codec, old(entries), HostPort(host, port), fingerprint)
      ensures CodecOk(codec) && old(EntriesOk(entries)) ==> Valid()
    {
      hide CodecOk, Parse, PlaceOk;
      var hp := HostPort(host, port);
      if hp in entries {
        var keys := Without(codec, entries[hp], fingerprint);
        entries := if keys == [] then entries - {hp} else entries[hp := keys];
      }
      file := Snapshot();
    }

    /** Any sequence of additions and removals leaves file and memory in agreement. */
    method Apply(ops: seq<Op<Key>>)
      modifies this
      ensures entries == ApplyAll(codec, old(entries), ops)
      ensures old(Valid()) && (forall i :: 0 <= i < |ops| ==> OpOk(ops[i])) ==> Valid()
    {
      hide CodecOk, Parse, Added, Removed, HostOk, EntryLine;
      ghost var ok := Valid() && forall i :: 0 <= i < |ops| ==> OpOk(ops[i]);
      for k := 0 to |ops|
        invariant ok ==> Valid()
        invariant ApplyAll(codec, entries, ops[k..]) == ApplyAll(codec, old(entries), ops)
      {
        assert ops[k..][0] == ops[k] && ops[k..][1..] == ops[k + 1..];
        assert ok ==> OpOk(ops[k]);
        match ops[k] {
          case AddKey(host, port, key) => Add(host, port, key);
          case RemoveKey(host, port, fingerprint) => Remove(host, port, fingerprint);
        }
      }
    }
  }

  /** Trust on first use: once a host is added with one key, it is known, and any other key is a mismatch. */
  method AddFirst<Key(==,!new)>(s: Store<Key>, host: string, port: Port, key: Key, other: Key) returns (v: Verdict)
    requires HostPort(host, port) !in s.entries
    modifies s
    ensures v == if other == key then Match else Mismatch
    ensures s.entries.Keys == old(s.entries).Keys + {HostPort(host, port)}
  {
    s.Add(host, port, key);
    v := s.Verify(host, port, other);
  }

  lemma OneKeyMore<Key>(m: Entries<Key>, hp: HostPort, keys: seq<Key>, k: nat)
    requires hp !in m && k < |keys|
    ensures Added(if k == 0 then m else m[hp := keys[..k]], hp, keys[k]) == m[hp := keys[..k + 1]]
  {
    assert keys[..k + 1] == keys[..k] + [keys[k]];
  }

  lemma OneHostLess<Key>(all: Entries<Key>, left: Entries<Key>, hp: HostPort)
    requires left.Keys <= all.Keys && hp in left && left[hp] == all[hp]
    ensures hp !in all - left.Keys && (all - left.Keys)[hp := left[hp]] == all - (left - {hp}).Keys
    ensures (left - {hp}).Keys <= all.Keys && |left - {hp}| < |left|
  {
    assert (left - {hp}).Keys == left.Keys - {hp};
    assert |left.Keys - {hp}| < |left.Keys|;
  }

  datatype Op<Key> =
    | AddKey(host: string, port: Port, key: Key)
    | RemoveKey(host: string, port: Port, fingerprint: string)

  predicate OpOk<Key>(op: Op<Key>) {
    op.AddKey? ==> HostOk(op.host)
  }

  function ApplyAll<Key>(c: Codec<Key>, m: Entries<Key>, ops: seq<Op<Key>>): Entries<Key>
    decreases |ops|
  {
    if ops == [] then m
    else
      var next := match ops[0]
                  case AddKey(host, port, key) => Added(m, HostPort(host, port), key)
                  case RemoveKey(host, port, fingerprint) => Removed(c, m, HostPort(host, port), fingerprint);
      ApplyAll(c, next, ops[1..])
  }

  // -------------------------------------------------------------------- what it means

  /** An added key is trusted from then on, nobody loses trust, and other hosts are not touched. */
  lemma AddTrusts<Key>(m: Entries<Key>, hp: HostPort, key: Key, other: HostPort, k: Key)
    ensures Lookup(Added(m, hp, key), hp, key) == Match
    ensures Lookup(m, other, k) == Match ==> Lookup(Added(m, hp, key), other, k) == Match
    ensures other != hp ==> Lookup(Added(m, hp, key), other, k) == Lookup(m, other, k)
  {
    var keys := KeysOf(m, hp) + [key];
    assert keys[|keys| - 1] == key && forall x :: x in KeysOf(m, hp) ==> x in keys;
  }

  lemma {:induction false} WithoutKeeps<Key>(c: Codec<Key>, keys: seq<Key>, fingerprint: string, k: Key)
    ensures k in Without(c, keys, fingerprint) <==> k in keys && c.fingerprint(k) != fingerprint
  {
    if keys != [] {
      WithoutKeeps(c, keys[1..], fingerprint, k);
    }
  }

  /** Removing by fingerprint withdraws trust from exactly the keys of that host that have it. */
  lemma RemoveDistrusts<Key>(c: Codec<Key>, m: Entries<Key>, hp: HostPort, fingerprint: string, other: HostPort, k: Key)
    ensures Lookup(Removed(c, m, hp, fingerprint), other, k) == Match
       <==> Lookup(m, other, k) == Match && !(other == hp && c.fingerprint(k) == fingerprint)
  {
    if hp in m {
      WithoutKeeps(c, m[hp], fingerprint, k);
    }
  }

  // --------------------------------------------------- appending to an unfinished line

  /** And nothing in front of a key's text is ignored: with more in front it is not that key. */
  ghost predicate CodecStrict<Key(!new)>(c: Codec<Key>) {
    CodecOk(c) && forall k: Key, p: string :: p != "" && !IsSpace(p[0]) ==> c.decode(p + c.encode(k)) != Some(k)
  }

  predicate Word(s: string) {
    s != "" && forall i :: 0 <= i < |s| ==> !IsSpace(s[i])
  }

  predicate Comment(s: string) {
    Trim(s) != "" && Trim(s)[0] == '#'
  }

  /** A text with an unfinished last line holds what its lines hold. */
  lemma UnfinishedLine<Key>(c: Codec<Key>, text: string, last: string)
    requires Terminated(text) && '\n' !in last
    ensures Parse(c, text + last) == Noted(Parse(c, text), ParseLine(c, last))
  {
    LinesAppend(text, last);
    if last == "" {
      assert text + last == text && Trim("") == "";
    } else {
      assert FindFirst(last, ch => ch == '\n').None?;
      assert Lines(last) == [last] && [last][1..] == [];
      FoldAppend(c, map[], Lines(text), [last]);
    }
  }

  lemma GluedText(last: string, host: string, port: string, code: string)
    ensures last + (host + ":" + port + " " + code) == last + host + ":" + port + " " + code
  {
  }

  /** A line glued to an unfinished word is lost, or belongs to another host. */
  lemma GluedLine<Key(!new)>(c: Codec<Key>, last: string, hp: HostPort, key: Key)
    requires CodecOk(c) && PlaceOk(hp) && Word(last)
    ensures var e := ParseLine(c, last + EntryLine(c, hp, key));
            e.None? || e.value.0 != hp
  {
    var other := HostPort(last + hp.host, hp.port);
    assert Tight(c.encode(key));
    GluedText(last, hp.host, Digits(hp.port), c.encode(key));
    if last[0] == '#' {
      TrimKeepsHead(last);
      hide ParseLine, EntryLine;
      CommentGlued(c, last, EntryLine(c, hp, key));
    } else {
      assert PlaceOk(other) && |other.host| > |hp.host|;
      hide ParseLine, CodecOk;
      LineParts(c, other, c.encode(key));
    }
  }

  lemma ParsePads<Key>(c: Codec<Key>, pad: string, s: string)
    requires Blank(pad)
    ensures ParseLine(c, pad + s) == ParseLine(c, s)
  {
    TrimPads(pad, s);
  }

  /** Whatever entry a line holds, its key is what stands behind the first blank. */
  lemma KeyBehindBlank<Key>(c: Codec<Key>, t: string, n: nat)
    requires Tight(t) && FindFirst(t, IsSpace) == Some(n)
    ensures n < |t| && (ParseLine(c, t).Some? ==> c.decode(Trim(t[n + 1..])) == Some(ParseLine(c, t).value.1))
  {
    hide RSplitColon, ParsePort;
    Trimmed(t);
  }

  /** A text behind a line with a blank in it: what stands behind the first blank is more than that text. */
  lemma SpacedText(last: string, place: string, code: string) returns (p: string)
    requires last != "" && !IsSpace(last[0]) && !Word(last) && ':' in place && Tight(code)
    ensures var t := last + (place + " " + code);
            && Tight(t) && FindFirst(t, IsSpace).Some?
            && p != "" && !IsSpace(p[0]) && Trim(t[FindFirst(t, IsSpace).value + 1..]) == p + code
  {
    hide Trim;
    var t := last + (place + " " + code);
    assert t[0] == last[0] && t[|t| - 1] == code[|code| - 1];
    var i :| 0 <= i < |last| && IsSpace(last[i]);
    assert t[i] == last[i];
    var n := FindFirst(t, IsSpace).value;
    assert n <= i;
    var front := last[n + 1..];
    assert t[n + 1..] == front + place + " " + code;
    p := FrontStays(front + place + " ", front, place, code);
  }

  /** Glued to a line with a blank in it, the entry becomes the end of a key's text. */
  lemma SpacedLine<Key(!new)>(c: Codec<Key>, last: string, hp: HostPort, key: Key)
    requires CodecStrict(c) && last != "" && !IsSpace(last[0]) && !Word(last)
    ensures ParseLine(c, last + EntryLine(c, hp, key)) != Some((hp, key))
  {
    assert Tight(c.encode(key));
    hide Digits, ParseLine, Trim, CodecStrict, CodecOk, Blank, Word, Tight;
    var place := hp.host + ":" + Digits(hp.port);
    assert place[|hp.host|] == ':';
    var p := SpacedText(last, place, c.encode(key));
    var t := last + EntryLine(c, hp, key);
    KeyBehindBlank(c, t, FindFirst(t, IsSpace).value);
    NothingIgnored(c, p, key);
  }

  lemma NothingIgnored<Key(!new)>(c: Codec<Key>, p: string, key: Key)
    requires CodecStrict(c) && p != "" && !IsSpace(p[0])
    ensures c.decode(p + c.encode(key)) != Some(key)
  {
  }

  /** Trimmed, such a text still has something in front of the key's. */
  lemma FrontStays(x: string, front: string, place: string, code: string) returns (p: string)
    requires x == front + place + " " && ':' in place && Tight(code)
    ensures p != "" && !IsSpace(p[0]) && Trim(x + code) == p + code
  {
    var pad := TrimStartSplits(x);
    p := TrimStart(x);
    assert p != "" by {
      var k :| 0 <= k < |place| && place[k] == ':';
      assert x[|front| + k] == ':';
      assert pad + "" == pad;
    }
    assert x + code == pad + (p + code);
    assert (p + code)[0] == p[0] && (p + code)[|p + code| - 1] == code[|code| - 1];
    TrimPads(pad, p + code);
    Trimmed(p + code);
  }

  lemma Counted<Key>(m: Entries<Key>, e: Option<(HostPort, Key)>, hp: HostPort)
    ensures |KeysOf(Noted(m, e), hp)| == |KeysOf(m, hp)| + if e.Some? && e.value.0 == hp then 1 else 0
  {
  }

  /** A note that is not the added entry, or an entry noted before, leaves the file behind the map. */
  lemma NotAdded<Key>(
      m: Entries<Key>, first: Option<(HostPort, Key)>, e: Option<(HostPort, Key)>, hp: HostPort, key: Key)
    ensures Noted(m, e) == Added(Noted(m, first), hp, key) <==> first.None? && e == Some((hp, key))
  {
    var after, full := Noted(m, e), Added(Noted(m, first), hp, key);
    Counted(m, e, hp);
    Counted(m, first, hp);
    Counted(Noted(m, first), Some((hp, key)), hp);
    if first.Some? {
      var other := first.value.0;
      Counted(m, e, other);
      Counted(m, first, other);
      Counted(Noted(m, first), Some((hp, key)), other);
      assert |KeysOf(after, hp)| < |KeysOf(full, hp)| || |KeysOf(after, other)| < |KeysOf(full, other)|;
    } else if after == full {
      var keys := KeysOf(m, hp);
      assert e.Some? && e.value.0 == hp;
      assert (keys + [e.value.1])[|keys|] == (keys + [key])[|keys|];
    }
  }

  lemma CommentGlued<Key>(c: Codec<Key>, last: string, more: string)
    requires Comment(last)
    ensures ParseLine(c, last) == None && ParseLine(c, last + more) == None
  {
    var left, right := TrimSplits(last);
    var t := Trim(last);
    assert last + more == left + (t + right + more);
    TrimPads(left, t + right + more);
    TrimKeepsHead(t + right + more);
  }

  lemma TrimKeepsHead(s: string)
    requires s != "" && !IsSpace(s[0])
    ensures Trim(s) != "" && Trim(s)[0] == s[0]
  {
    assert TrimStart(s) == s;
    var pad := TrimEndSplits(s);
    assert s[0] == (TrimEnd(s) + pad)[0];
  }

  /** In front of whitespace and text that is not all whitespace, glueing hides or spoils the entry. */
  lemma CoreGlued<Key(!new)>(c: Codec<Key>, last: string, hp: HostPort, key: Key)
    requires CodecStrict(c) && PlaceOk(hp) && !Blank(last)
    ensures ParseLine(c, last + EntryLine(c, hp, key)) != Some((hp, key))
  {
    hide ParseLine, EntryLine, PlaceOk, Word;
    var pad := TrimStartSplits(last);
    var core, line := TrimStart(last), EntryLine(c, hp, key);
    assert core != "" by { assert pad + "" == pad; }
    assert last + line == pad + (core + line);
    ParsePads(c, pad, core + line);
    if Word(core) {
      GluedLine(c, core, hp, key);
    } else {
      SpacedLine(c, core, hp, key);
    }
  }

  /** What glueing does to the kinds of unfinished lines: only whitespace lets the entry through. */
  lemma GluedParses<Key(!new)>(c: Codec<Key>, last: string, hp: HostPort, key: Key)
    requires CodecOk(c) && PlaceOk(hp)
    ensures var e := ParseLine(c, last + EntryLine(c, hp, key));
            && (Blank(last) ==> ParseLine(c, last) == None && e == Some((hp, key)))
            && (Comment(last) || Word(last) ==> e != Some((hp, key)))
            && (CodecStrict(c) && !Blank(last) ==> e != Some((hp, key)))
  {
    var line := EntryLine(c, hp, key);
    LineReads(c, hp, key);
    hide ParseLine, EntryLine, CodecOk, CodecStrict, Comment, Word, PlaceOk, Blank;
    if Comment(last) {
      CommentGlued(c, last, line);
    }
    if Word(last) {
      GluedLine(c, last, hp, key);
    }
    if Blank(last) {
      BlankHoldsNone(c, last);
      ParsePads(c, last, line);
    } else if CodecStrict(c) {
      CoreGlued(c, last, hp, key);
    }
  }

  lemma BlankHoldsNone<Key>(c: Codec<Key>, last: string)
    requires Blank(last)
    ensures ParseLine(c, last) == None
  {
    TrimPadded(last, "", "");
    assert last + "" + "" == last;
  }

  /**
    Appending to a file with an unfinished last line agrees with the map exactly when
    that line holds no entry and the glued one holds the new one. So it agrees behind
    whitespace and never behind an entry, a comment or a word; where nothing in front
    of a key's text is ignored, whitespace is the only case.
  */
  lemma AddAgreesIff<Key(!new)>(c: Codec<Key>, text: string, last: string, hp: HostPort, key: Key)
    requires CodecOk(c) && PlaceOk(hp) && Terminated(text) && '\n' !in last
    ensures var line := EntryLine(c, hp, key);
            var agrees := Parse(c, text + last + (line + "\n")) == Added(Parse(c, text + last), hp, key);
            && (agrees <==> ParseLine(c, last).None? && ParseLine(c, last + line) == Some((hp, key)))
            && (Blank(last) ==> agrees)
            && (ParseLine(c, last).Some? || Comment(last) || Word(last) ==> !agrees)
            && (CodecStrict(c) ==> (agrees <==> Blank(last)))
  {
    var line := EntryLine(c, hp, key);
    LineReads(c, hp, key);
    GluedParses(c, last, hp, key);
    hide CodecOk, CodecStrict, PlaceOk, Parse, ParseLine, EntryLine, Added, Noted, Terminated, Comment, Word, Blank;
    assert '\n' !in last + line;
    UnfinishedLine(c, text, last);
    LineAppended(c, text, last + line);
    AssocFour(text, last, line, "\n");
    Assoc(text + last, line, "\n");
    Assoc(last, line, "\n");
    NotAdded(Parse(c, text), ParseLine(c, last), ParseLine(c, last + line), hp, key);
  }
}
