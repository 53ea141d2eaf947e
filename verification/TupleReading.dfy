/**
  Reading back a whole row of a dumped INSERT the way the target server does: a list
  of literals between parentheses, each read as a datum. No value can swallow its
  neighbour, and it is decided which values come back as themselves.
*/
module TupleReading {
  import opened Text
  import opened DumpWriter

  /** What a literal means to a server. MySQL has no truth values of its own, only 1 and 0. */
  datatype Datum = Nothing | Truth(b: bool) | Numeral(text: string) | Characters(s: string) | Binary(bytes: string)

  // ------------------------------------------------------------------- one literal

  function HexValue(c: char): Option<nat> {
    if '0' <= c <= '9' then Some(c as int - '0' as int)
    else if 'A' <= c <= 'F' then Some(c as int - 'A' as int + 10)
    else if 'a' <= c <= 'f' then Some(c as int - 'a' as int + 10)
    else None
  }

  /** Pairs of hex digits, the more significant one first. */
  function ReadHex(s: string): Option<string> {
    if s == "" then Some("")
    else if |s| == 1 then None
    else
      match (HexValue(s[0]), HexValue(s[1]), ReadHex(s[2..]))
      case (Some(high), Some(low), Some(more)) =>
        if high < 16 && low < 16 then Some([(16 * high + low) as char] + more) else None
      case _ => None
  }

  /** A bare word. To MySQL `0x` without a digit is a name, not a literal. */
  function ReadWord(t: string, pg: bool): Option<Datum> {
    if t == "NULL" then Some(Nothing)
    else if pg && t == "TRUE" then Some(Truth(true))
    else if pg && t == "FALSE" then Some(Truth(false))
    else if !pg && StartsWith(t, "0x") && |t| > 2 then
      match ReadHex(t[2..])
      case Some(bytes) => Some(Binary(bytes))
      case None => None
    else if NumberText(t) then Some(Numeral(t))
    else None
  }

  /** A string for PostgreSQL: standard, perhaps cast to bytes. */
  function ReadCast(value: string, rest: string): Option<(Datum, string)> {
    if !StartsWith(rest, "::bytea") then Some((Characters(value), rest))
    else if !StartsWith(value, "\\x") then None
    else
      match ReadHex(value[2..])
      case Some(bytes) => Some((Binary(bytes), rest[7..]))
      case None => None
  }

  function WordEnd(s: string): nat {
    match FindFirst(s, c => c == ',' || c == ')')
    case Some(n) => n
    case None => |s|
  }

  /** The literal at the head of a list, and what follows it. */
  function ReadDatum(s: string, pg: bool): Option<(Datum, string)> {
    if s != "" && s[0] == '\'' then
      match if pg then ReadStandard(s[1..]) else ReadString(s[1..])
      case Some((value, rest)) => if pg then ReadCast(value, rest) else Some((Characters(value), rest))
      case None => None
    else
      var n := if WordEnd(s) <= |s| then WordEnd(s) else |s|;
      match ReadWord(s[..n], pg)
      case Some(d) => Some((d, s[n..]))
      case None => None
  }

  /** The data up to the closing parenthesis, and what follows it. */
  function ReadData(s: string, pg: bool): Option<(seq<Datum>, string)>
    decreases |s|
  {
    if s != "" && s[0] == ')' then Some(([], s[1..]))
    else
      match ReadDatum(s, pg)
      case None => None
      case Some((d, rest)) =>
        if |rest| >= |s| || rest == "" then None
        else if rest[0] == ')' then Some(([d], rest[1..]))
        else if ", " <= rest then
          match ReadData(rest[2..], pg)
          case Some((more, end)) => Some(([d] + more, end))
          case None => None
        else None
  }

  // ---------------------------------------------------------------- what is meant

  /** The datum a value is. A blob written as a string is meant as the string of its bytes. */
  function Own(v: Value, style: Style): Datum {
    match v
    case Null => Nothing
    case Bool(b) => if style.pg then Truth(b) else Numeral(if b then "1" else "0")
    case Number(text) => Numeral(text)
    case String(s) => Characters(s)
    case Bytes(bytes) => if style.pg || style.hexBlob then Binary(bytes) else Characters(bytes)
  }

  /** The datum it is read as, if it is read at all. */
  function Written(v: Value, style: Style): Option<Datum> {
    match v
    case String(s) => Some(Characters(if style.pg then Shown(s) else s))
    case Bytes(bytes) =>
      if style.pg then Some(Binary(bytes))
      else if !style.hexBlob then Some(Characters(Widened(bytes)))
      else if bytes == "" then None
      else Some(Binary(bytes))
    case _ => Some(Own(v, style))
  }

  /**
    What comes back as itself: for MySQL a string, a blob in hex unless it is empty, a
    blob outside hex whose bytes are below 128; for PostgreSQL a blob, a string without
    backslash, LF, CR and NUL; and everything else.
  */
  predicate Kept(v: Value, style: Style) {
    match v
    case String(s) => style.pg ==> forall i :: 0 <= i < |s| ==> !Escapes(s[i])
    case Bytes(bytes) => if style.pg then true else if style.hexBlob then bytes != "" else Ascii(bytes)
    case _ => true
  }

  lemma KeptIs(v: Value, style: Style)
    ensures Kept(v, style) <==> Written(v, style) == Some(Own(v, style))
  {
    match v
    case String(s) => ShownIff(s);
    case Bytes(bytes) => WidenedIff(bytes);
    case _ =>
  }

  // ---------------------------------------------------------------- reading literals

  lemma HexDigitReads(n: nat, upper: bool)
    requires n < 16
    ensures HexValue(HexDigit(n, upper)) == Some(n)
  {
  }

  /** One pair of digits. */
  lemma PairReads(n: nat, upper: bool, more: string)
    requires n < 256
    ensures ReadHex([HexDigit(n / 16, upper), HexDigit(n % 16, upper)] + more)
         == match ReadHex(more) case Some(bytes) => Some([n as char] + bytes) case None => None
  {
    HexDigitReads(n / 16, upper);
    HexDigitReads(n % 16, upper);
    hide HexDigit, HexValue;
    var s := [HexDigit(n / 16, upper), HexDigit(n % 16, upper)] + more;
    assert s[2..] == more;
    assert 16 * (n / 16) + n % 16 == n;
  }

  lemma NothingReads()
    ensures ReadHex("") == Some("")
  {
  }

  lemma {:induction false} HexReads(bytes: string, upper: bool)
    requires Octets(bytes)
    ensures ReadHex(Hex(bytes, upper)) == Some(bytes)
  {
    hide HexDigit, ReadHex;
    if bytes == "" {
      NothingReads();
    } else {
      var n := bytes[0] as int;
      assert n % 256 == n;
      PairReads(n, upper, Hex(bytes[1..], upper));
      HexReads(bytes[1..], upper);
      assert bytes == [n as char] + bytes[1..];
    }
  }

  /** Words are made of characters that neither end a list entry nor open a string. */
  predicate WordText(t: string) {
    t != "" && forall i :: 0 <= i < |t| ==> t[i] != ',' && t[i] != ')' && t[i] != '\''
  }

  lemma WordReads(t: string, x: string, pg: bool)
    requires WordText(t) && x != "" && (x[0] == ',' || x[0] == ')')
    ensures ReadDatum(t + x, pg) == match ReadWord(t, pg) case Some(d) => Some((d, x)) case None => None
  {
    hide ReadWord, ReadCast;
    var s := t + x;
    assert forall i :: 0 <= i < |t| ==> s[i] == t[i];
    assert s[|t|] == x[0];
    var found := FindFirst(s, c => c == ',' || c == ')');
    assert found.Some? && found.value == |t|;
    assert s[..|t|] == t && s[|t|..] == x;
  }

  /** A printed string, for either server. */
  lemma QuotedReads(value: string, x: string, pg: bool)
    requires x == "" || x[0] != '\''
    ensures ReadDatum(DumpWriter.Quoted(value) + x, pg)
         == if pg then ReadCast(Shown(value), x) else Some((Characters(value), x))
  {
    hide ReadString, ReadStandard, Escape, ReadCast;
    var inner := Escape(value) + "'" + x;
    assert DumpWriter.Quoted(value) + x == "'" + inner;
    assert ("'" + inner)[1..] == inner;
    LiteralRoundTrip(value, x);
    StandardReads(value, x);
  }

  lemma {:induction false} PlainStandard(t: string, rest: string)
    requires (forall i :: 0 <= i < |t| ==> t[i] != '\'') && (rest == "" || rest[0] != '\'')
    ensures ReadStandard(t + "'" + rest) == Some((t, rest))
    decreases |t|
  {
    hide ReadStandard;
    if t == "" {
      StandardTurn('x', rest);
      assert t + "'" + rest == "'" + rest;
    } else {
      PlainStandard(t[1..], rest);
      StandardTurn(t[0], t[1..] + "'" + rest);
      assert t + "'" + rest == [t[0]] + (t[1..] + "'" + rest);
      assert [t[0]] + t[1..] == t;
    }
  }

  lemma CastText(h: string, x: string)
    ensures "'\\x" + h + "'::bytea" + x == "'" + ("\\x" + h + "'" + ("::bytea" + x))
    ensures ("'" + ("\\x" + h + "'" + ("::bytea" + x)))[1..] == "\\x" + h + "'" + ("::bytea" + x)
    ensures ("\\x" + h)[2..] == h && ("::bytea" + x)[7..] == x && StartsWith("::bytea" + x, "::bytea")
  {
    assert "'\\x" == "'" + "\\x" && "'::bytea" == "'" + "::bytea";
    var inner := "\\x" + h + "'" + ("::bytea" + x);
    assert "'" + "\\x" + h + ("'" + "::bytea") + x == "'" + inner;
  }

  /** A printed blob, for PostgreSQL. */
  lemma CastReads(bytes: string, x: string)
    requires Octets(bytes)
    ensures ReadDatum("'\\x" + Hex(bytes, false) + "'::bytea" + x, true) == Some((Binary(bytes), x))
  {
    var h := Hex(bytes, false);
    HexIsPlain(bytes, false);
    HexReads(bytes, false);
    CastText(h, x);
    hide ReadStandard, Hex, ReadHex;
    assert forall i :: 0 <= i < |"\\x" + h| ==> ("\\x" + h)[i] != '\'';
    PlainStandard("\\x" + h, "::bytea" + x);
  }

  /** The words: NULL, truth values, numbers, blobs in hex. */
  lemma LiteralIsWord(v: Value, style: Style)
    requires ValueOk(v) && !v.String? && (v.Bytes? ==> !style.pg && style.hexBlob)
    ensures WordText(Literal(v, style)) && ReadWord(Literal(v, style), style.pg) == Written(v, style)
  {
    match v
    case Bytes(bytes) =>
      var h := Hex(bytes, true);
      HexIsPlain(bytes, true);
      HexReads(bytes, true);
      var t := "0x" + h;
      assert t[2..] == h && t[1] == 'x' && StartsWith(t, "0x");
      assert t != "NULL" by { assert t[0] == '0'; }
    case Number(t) =>
      assert IsDigit(t[0]) || t[0] == '.' || t[0] == '-';
      assert |t| > 1 ==> t[1] != 'x';
    case _ =>
  }

  lemma LiteralReads(v: Value, style: Style, x: string)
    requires ValueOk(v) && x != "" && (x[0] == ',' || x[0] == ')')
    ensures ReadDatum(Literal(v, style) + x, style.pg)
         == match Written(v, style) case Some(d) => Some((d, x)) case None => None
    ensures Literal(v, style) != "" && Literal(v, style)[0] != ')'
  {
    hide ReadDatum, Escape, Hex, Widened, Shown, ReadWord, ReadHex;
    if v.String? {
      QuotedReads(v.s, x, style.pg);
    } else if v.Bytes? && style.pg {
      CastReads(v.bytes, x);
    } else if v.Bytes? && !style.hexBlob {
      QuotedReads(Widened(v.bytes), x, false);
    } else {
      LiteralIsWord(v, style);
      WordReads(Literal(v, style), x, style.pg);
    }
  }

  // -------------------------------------------------------------------- a whole row

  /** What a list that begins with a literal is read as. */
  lemma DatumThen(lit: string, d: Datum, x: string, pg: bool)
    requires lit != "" && lit[0] != ')' && ReadDatum(lit + x, pg) == Some((d, x)) && x != ""
    ensures x[0] == ')' ==> ReadData(lit + x, pg) == Some(([d], x[1..]))
    ensures ", " <= x ==>
              ReadData(lit + x, pg) == match ReadData(x[2..], pg)
                                       case Some((more, end)) => Some(([d] + more, end))
                                       case None => None
  {
    hide ReadDatum;
    assert (lit + x)[0] == lit[0];
  }

  lemma DatumFails(lit: string, x: string, pg: bool)
    requires lit != "" && lit[0] != ')' && ReadDatum(lit + x, pg) == None
    ensures ReadData(lit + x, pg) == None
  {
    hide ReadDatum;
    assert (lit + x)[0] == lit[0];
  }

  /** The data a row is read as; `None` if one of its values is not read. */
  function RowData(row: seq<Value>, style: Style): Option<seq<Datum>> {
    if row == [] then Some([])
    else
      match (Written(row[0], style), RowData(row[1..], style))
      case (Some(d), Some(more)) => Some([d] + more)
      case _ => None
  }

  /** The data a row is. */
  function OwnData(row: seq<Value>, style: Style): (r: seq<Datum>)
    ensures |r| == |row| && forall i :: 0 <= i < |row| ==> r[i] == Own(row[i], style)
  {
    seq(|row|, i requires 0 <= i < |row| => Own(row[i], style))
  }

  /** The text of a list is its first literal and what follows it. */
  lemma RowSplits(row: seq<Value>, style: Style, tail: string)
    requires row != []
    ensures var more := Join(Literals(row[1..], style), ", ") + tail;
            Join(Literals(row, style), ", ") + tail
            == Literal(row[0], style) + if |row| == 1 then tail else ", " + more
  {
    hide Literal;
    assert Literals(row, style)[1..] == Literals(row[1..], style);
    AssocFour(Literal(row[0], style), ", ", Join(Literals(row[1..], style), ", "), tail);
  }

  /**
    A printed row is read value by value, in order, up to its own closing parenthesis,
    whatever the values and whatever follows; one that holds an empty blob in hex is not
    read at all.
  */
  lemma {:induction false} RowReads(row: seq<Value>, style: Style, rest: string)
    requires forall i :: 0 <= i < |row| ==> ValueOk(row[i])
    ensures ReadData(Join(Literals(row, style), ", ") + (")" + rest), style.pg)
         == match RowData(row, style) case Some(data) => Some((data, rest)) case None => None
    decreases |row|
  {
    var tail := ")" + rest;
    assert tail[0] == ')' && tail[1..] == rest;
    if row == [] {
      assert Join(Literals(row, style), ", ") + tail == tail;
    } else {
      hide ReadData, ReadDatum, Literal, Literals, ValueOk, Join, Written;
      var lit, more := Literal(row[0], style), Join(Literals(row[1..], style), ", ") + tail;
      var x := if |row| == 1 then tail else ", " + more;
      assert (", " + more)[0] == ',' && (", " + more)[2..] == more;
      RowSplits(row, style, tail);
      LiteralReads(row[0], style, x);
      if Written(row[0], style).None? {
        DatumFails(lit, x, style.pg);
      } else {
        var d := Written(row[0], style).value;
        DatumThen(lit, d, x, style.pg);
        if |row| == 1 {
          assert [d] + [] == [d];
        } else {
          RowReads(row[1..], style, rest);
        }
      }
    }
  }

  lemma {:induction false} RowDataIs(row: seq<Value>, style: Style)
    ensures RowData(row, style) == Some(OwnData(row, style)) <==> forall i :: 0 <= i < |row| ==> Kept(row[i], style)
    decreases |row|
  {
    if row == [] {
      assert OwnData(row, style) == [];
    } else {
      hide Written, Own, Kept;
      KeptIs(row[0], style);
      RowDataIs(row[1..], style);
      var own, more := OwnData(row, style), OwnData(row[1..], style);
      assert own == [Own(row[0], style)] + more && own[1..] == more;
      assert forall i :: 0 < i < |row| ==> row[i] == row[1..][i - 1];
      if RowData(row, style) == Some(own) {
        var d, data := Written(row[0], style).value, RowData(row[1..], style).value;
        assert ([d] + data)[0] == d && ([d] + data)[1..] == data;
      }
    }
  }

  /** A row reads back as its own values exactly when each of them is one that is kept. */
  lemma RowIsKeptIff(row: seq<Value>, style: Style, rest: string)
    requires forall i :: 0 <= i < |row| ==> ValueOk(row[i])
    ensures ReadData(Join(Literals(row, style), ", ") + (")" + rest), style.pg) == Some((OwnData(row, style), rest))
       <==> forall i :: 0 <= i < |row| ==> Kept(row[i], style)
  {
    hide ReadData, Literals, Join, OwnData, RowData, ValueOk, Kept;
    RowReads(row, style, rest);
    RowDataIs(row, style);
  }

  /** Two rows that print alike are read as the same data, and are the same data where all values are kept. */
  lemma SameTextSameData(a: seq<Value>, b: seq<Value>, style: Style)
    requires (forall i :: 0 <= i < |a| ==> ValueOk(a[i])) && forall i :: 0 <= i < |b| ==> ValueOk(b[i])
    requires RowSql(a, style) == RowSql(b, style)
    ensures RowData(a, style) == RowData(b, style)
    ensures (forall i :: 0 <= i < |a| ==> Kept(a[i], style)) && (forall i :: 0 <= i < |b| ==> Kept(b[i], style)) ==>
              OwnData(a, style) == OwnData(b, style)
  {
    hide ReadData, OwnData, RowData, ValueOk, Literals, Kept;
    RowReads(a, style, "");
    RowReads(b, style, "");
    RowDataIs(a, style);
    RowDataIs(b, style);
    RowText(Join(Literals(a, style), ", "));
    RowText(Join(Literals(b, style), ", "));
  }

  /** Without that they need not be: the blob E9 and the string C3 A9 print alike. */
  lemma WidenedClash(style: Style)
    requires !style.pg && !style.hexBlob
    ensures var blob, text := Bytes([233 as char]), String([195 as char, 169 as char]);
            Literal(blob, style) == Literal(text, style) && Own(blob, style) != Own(text, style)
  {
    var blob, text := [233 as char], [195 as char, 169 as char];
    assert Widened(blob[1..]) == "" && Widened(blob) == text;
  }

  lemma RowText(cells: string)
    ensures ("  (" + cells + ")")[3..] == cells + (")" + "")
  {
    assert ")" + "" == ")";
  }
}
