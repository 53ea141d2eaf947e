/**
  The marker lines of a dump as the importer's splitter takes them
  (`classify_marker` and the end of input in src-tauri/src/sql_import.rs).
*/
module Markers {
  import opened Text
  import opened Splitter
  import opened ChunkIndependence
  import opened Framing

  /** One of the words, and whatever follows it. */
  predicate Opens(rest: string, word: string) {
    |word| <= |rest| && rest[..|word|] == word
  }

  /** The word alone on its line. */
  predicate Alone(rest: string, word: string) {
    Opens(rest, word) && Blank(rest[|word|..])
  }

  /** What stands behind `-- @BM:` on a line that marks a region. */
  predicate Names(kind: Kind, rest: string) {
    match kind
    case Dump => Opens(rest, "DUMP")
    case Table => Opens(rest, "T ") || Opens(rest, "T\t")
    case Data => Opens(rest, "D ") || Opens(rest, "D\t") || Alone(rest, "D")
    case Indexes => Opens(rest, "I ") || Alone(rest, "I")
    case Footer => Opens(rest, "F ") || Alone(rest, "F")
  }

  lemma AloneIs(rest: string, word: string)
    requires |word| == 1 && !IsSpace(word[0])
    ensures TrimEnd(rest) == word <==> Alone(rest, word)
  {
    if TrimEnd(rest) == word {
      var pad := TrimEndSplits(rest);
      assert rest[..1] == word && rest[1..] == pad;
    }
    if Alone(rest, word) {
      TrimEndUnique(word, rest[1..]);
      assert word + rest[1..] == rest;
    }
  }

  /** The kinds exclude one another. */
  lemma OneKind(rest: string, a: Kind, b: Kind)
    requires Names(a, rest) && Names(b, rest)
    ensures a == b
  {
    FirstLetter(rest, a);
    FirstLetter(rest, b);
  }

  function Letter(kind: Kind): char {
    match kind
    case Dump => 'D'
    case Table => 'T'
    case Data => 'D'
    case Indexes => 'I'
    case Footer => 'F'
  }

  lemma FirstLetter(rest: string, kind: Kind)
    requires Names(kind, rest)
    ensures rest != "" && rest[0] == Letter(kind)
    ensures kind == Dump ==> |rest| > 1 && rest[1] == 'U'
    ensures kind == Data ==> |rest| == 1 || IsSpace(rest[1])
  {
    match kind
    case Dump => assert rest[..4][1] == 'U' && rest[..4][0] == 'D';
    case Table => assert rest[..2][0] == 'T';
    case Data =>
      if Alone(rest, "D") {
        assert rest[..1][0] == 'D' && (|rest| > 1 ==> rest[1] == rest[1..][0]);
      } else {
        assert rest[..2][0] == 'D' && rest[..2][1] == rest[1];
      }
    case Indexes => assert rest[0] == rest[..1][0];
    case Footer => assert rest[0] == rest[..1][0];
  }

  lemma WordsAre(rest: string)
    ensures TrimEnd(rest) == "D" <==> Alone(rest, "D")
    ensures TrimEnd(rest) == "I" <==> Alone(rest, "I")
    ensures TrimEnd(rest) == "F" <==> Alone(rest, "F")
    ensures StartsWith(rest, "DUMP") <==> Opens(rest, "DUMP")
    ensures StartsWith(rest, "T ") <==> Opens(rest, "T ")
    ensures StartsWith(rest, "T\t") <==> Opens(rest, "T\t")
    ensures StartsWith(rest, "D ") <==> Opens(rest, "D ")
    ensures StartsWith(rest, "D\t") <==> Opens(rest, "D\t")
    ensures StartsWith(rest, "I ") <==> Opens(rest, "I ")
    ensures StartsWith(rest, "F ") <==> Opens(rest, "F ")
  {
    AloneIs(rest, "D");
    AloneIs(rest, "I");
    AloneIs(rest, "F");
    hide Alone, TrimEnd;
  }

  lemma RestIs(line: string, rest: string, kind: Kind)
    requires TrimStart(line) == "-- @BM:" + rest
    ensures Classify(line) == Some(kind) <==> Names(kind, rest)
  {
    var t := "-- @BM:" + rest;
    assert StartsWith(t, "-- @BM:") && t[7..] == rest;
    WordsAre(rest);
    hide Alone, Opens, TrimEnd, TrimStart, StartsWith;
    if Names(kind, rest) && Classify(line).Some? && Classify(line) != Some(kind) {
      OneKind(rest, kind, Classify(line).value);
    }
  }

  /** A line is a marker of a kind exactly when, behind blanks, it is `-- @BM:` and what names the kind. */
  lemma MarkerIff(line: string, kind: Kind)
    ensures Classify(line) == Some(kind)
       <==> exists pad: string, rest: string :: Blank(pad) && line == pad + ("-- @BM:" + rest) && Names(kind, rest)
  {
    if Classify(line) == Some(kind) {
      var pad := TrimStartSplits(line);
      var rest := TrimStart(line)[7..];
      assert TrimStart(line) == "-- @BM:" + rest;
      RestIs(line, rest, kind);
      assert line == pad + ("-- @BM:" + rest);
    }
    if pad: string, rest: string :| Blank(pad) && line == pad + ("-- @BM:" + rest) && Names(kind, rest) {
      TrimStartUnique(pad, "-- @BM:" + rest);
      RestIs(line, rest, kind);
    }
  }

  // ------------------------------------------------------------------ the end of input

  lemma {:induction false} ReadsLast(buf: string, comment: string, line: string)
    requires '\n' !in line
    ensures Whole(State(";", buf, comment, "", Line), line) == CommentItems(comment + line) + Flushed(buf)
    decreases |line|
  {
    if line == "" {
      assert comment + line == comment;
      assert [] + (CommentItems(comment) + Flushed(buf)) == CommentItems(comment) + Flushed(buf);
    } else {
      hide Whole, CommentItems, Flushed;
      WholeTurn(State(";", buf, comment, "", Line), line);
      assert line[0] in line;
      ReadsLast(buf, comment + [line[0]], line[1..]);
      assert comment + [line[0]] + line[1..] == comment + line;
      NoItems(CommentItems(comment + line) + Flushed(buf));
    }
  }

  /**
    A comment that the input ends in counts as one that a line feed ends: a marker on
    the last line is emitted, and a statement in front of it is not lost.
  */
  lemma LastLine(buf: string, line: string)
    requires '\n' !in line
    ensures Whole(Between(buf), "--" + line) == CommentItems("--" + line) + Flushed(buf)
    ensures Blank(buf) ==> Whole(Between(buf), "--" + line) == Whole(Between(buf), "--" + line + "\n")
  {
    hide Whole, CommentItems;
    assert ("--" + line)[0] == '-' && ("--" + line)[1] == '-' && ("--" + line)[2..] == line;
    WholeTurn(Between(buf), "--" + line);
    NoItems(Whole(State(";", buf, "--", "", Line), line));
    ReadsLast(buf, "--", line);
    if Blank(buf) {
      ReadsDashes(buf, line, "");
      assert "--" + line + "\n" + "" == "--" + line + "\n";
      BlankEnds(buf);
    }
  }

  lemma BlankEnds(buf: string)
    requires Blank(buf)
    ensures Flushed(buf) == [] && Whole(Between(buf + "\n"), "") == []
  {
    TrimPadded(buf, "", "");
    assert buf + "" + "" == buf;
    TrimPadded(buf, "", "\n");
    assert buf + "" + "\n" == buf + "\n";
  }

  /** The final chunk adopts a delimiter that is being read, as the end of its line would. */
  lemma SettledDelim(st: State)
    requires st.delim != ""
    ensures Settled(st).delim == Step(st, "\n").st.delim
  {
  }
}
