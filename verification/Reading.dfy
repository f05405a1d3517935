/**
 How the reader takes apart what the generator puts together: white space, fixed
 text, numbers and string literals.
 */
module Reading {
  import opened Bytes
  import opened CxxReader
  import opened Header

  // --- White space and fixed text ---

  predicate AllSpace(ws: string) {
    forall k | 0 <= k < |ws| :: IsSpace(ws[k])
  }

  /** Not empty, and nothing of it is skipped as white space. */
  predicate Solid(s: string) {
    s != "" && !IsSpace(s[0])
  }

  lemma {:induction false} SkipsSpace(ws: string, s: string)
    requires AllSpace(ws)
    ensures SkipSpace(ws + s) == SkipSpace(s)
  {
    if ws == "" {
      assert ws + s == s;
    } else {
      assert (ws + s)[1..] == ws[1..] + s;
      SkipsSpace(ws[1..], s);
    }
  }

  lemma ExpectHere(ws: string, token: string, rest: string)
    requires AllSpace(ws) && Solid(token)
    ensures Expect(token, ws + (token + rest)) == Some(rest)
  {
    SkipsSpace(ws, token + rest);
  }

  lemma ExpectNow(token: string, rest: string)
    requires Solid(token)
    ensures Expect(token, token + rest) == Some(rest)
  {
    assert "" + (token + rest) == token + rest;
    ExpectHere("", token, rest);
  }

  lemma ExpectOther(ws: string, token: string, s: string)
    requires AllSpace(ws) && Solid(s) && token != "" && token[0] != s[0]
    ensures Expect(token, ws + s) == None
  {
    SkipsSpace(ws, s);
  }

  // --- Identifiers and numbers ---

  lemma {:induction false} MunchExact(class_: char -> bool, a: string, rest: string)
    requires forall k | 0 <= k < |a| :: class_(a[k])
    requires rest != "" ==> !class_(rest[0])
    ensures Munch(class_, a + rest) == a
  {
    if a == "" {
      assert a + rest == rest;
    } else {
      assert (a + rest)[1..] == a[1..] + rest;
      MunchExact(class_, a[1..], rest);
    }
  }

  predicate IsIdentifier(id: string) {
    id != "" && !IsDigit(id[0]) && forall k | 0 <= k < |id| :: IsWordChar(id[k])
  }

  lemma ReadsIdentifier(ws: string, id: string, rest: string)
    requires AllSpace(ws) && IsIdentifier(id) && (rest != "" ==> !IsWordChar(rest[0]))
    ensures ReadIdentifier(ws + (id + rest)) == Some((id, rest))
  {
    assert IsWordChar(id[0]);
    SkipsSpace(ws, id + rest);
    MunchExact(IsWordChar, id, rest);
  }

  lemma {:induction false} DecDigits(n: nat)
    ensures forall k | 0 <= k < |Dec(n)| :: IsDigit(Dec(n)[k])
    ensures DecimalValue(Dec(n)) == n
    ensures Dec(n)[0] == '0' ==> n == 0
  {
    if n >= 10 {
      DecDigits(n / 10);
      var digits := Dec(n);
      assert digits[..|digits| - 1] == Dec(n / 10);
    } else {
      assert DecimalValue(Dec(n)[..0]) == 0;
    }
  }

  lemma ReadsNumber(ws: string, n: nat, rest: string)
    requires AllSpace(ws) && (rest != "" ==> !IsDigit(rest[0]))
    ensures ReadNumber(ws + (Dec(n) + rest)) == Some((n, rest))
  {
    DecDigits(n);
    assert IsDigit(Dec(n)[0]);
    SkipsSpace(ws, Dec(n) + rest);
    MunchExact(IsDigit, Dec(n), rest);
  }

  // --- String literals ---

  /** The `char`s of a file. */
  function Chars(data: bytes): (s: string)
    ensures |s| == |data| && forall k | 0 <= k < |data| :: s[k] == data[k] as char
  {
    seq(|data|, k requires 0 <= k < |data| => data[k] as char)
  }

  lemma HexByteValue(b: byte)
    ensures var digits := [HexDigit(b / 16), HexDigit(b % 16)];
            && (forall k | 0 <= k < 2 :: IsHexDigit(digits[k]))
            && HexValue(digits) == b
  {
    var high, low := HexDigit(b / 16), HexDigit(b % 16);
    HexDigitValueOf(b / 16);
    HexDigitValueOf(b % 16);
    assert [high, low][..1] == [high];
    assert [high][..0] == "";
    assert HexValue([high]) == b / 16;
  }

  lemma HexDigitValueOf(d: nat)
    requires d < 16
    ensures IsHexDigit(HexDigit(d)) && HexDigitValue(HexDigit(d)) == d
  {
  }

  /** A two-digit escape followed by something that is no hexadecimal digit. */
  lemma ReadsHexByte(b: byte, rest: string)
    requires rest != "" && !IsHexDigit(rest[0])
    ensures ReadEscape(HexByte(b)[1..] + rest) == Some((b as char, rest))
  {
    var digits := [HexDigit(b / 16), HexDigit(b % 16)];
    var s := HexByte(b)[1..] + rest;
    HexByteValue(b);
    MunchExact(IsHexDigit, digits, rest);
    assert s[1..] == digits + rest;
    assert s[1..3] == digits;
  }

  lemma EscapeThen(s: string, c: char, next: string, value: string, rest: string)
    requires s != "" && s[0] == '\\' && ReadEscape(s[1..]) == Some((c, next))
    requires ReadCharacters(next) == Some((value, rest))
    ensures ReadCharacters(s) == Some(([c] + value, rest))
  {
  }

  lemma ReadsByteThen(b: byte, next: string, value: string, rest: string)
    requires next != "" && !IsHexDigit(next[0]) && ReadCharacters(next) == Some((value, rest))
    ensures ReadCharacters(HexByte(b) + next) == Some(([b as char] + value, rest))
  {
    var s := HexByte(b) + next;
    assert s[1..] == HexByte(b)[1..] + next;
    ReadsHexByte(b, next);
    EscapeThen(s, b as char, next, value, rest);
  }

  lemma ClosesLiteral(rest: string)
    ensures ReadCharacters("\"" + rest) == Some(("", rest))
  {
    assert ("\"" + rest)[1..] == rest;
  }

  lemma StartsNoHexDigit(data: bytes, rest: string)
    ensures !IsHexDigit((HexBytes(data) + ("\"" + rest))[0])
  {
    if data != [] { assert HexBytes(data)[0] == HexByte(data[0])[0]; }
  }

  lemma HexBytesHead(data: bytes, s: string)
    requires data != []
    ensures HexBytes(data) + s == HexByte(data[0]) + (HexBytes(data[1..]) + s)
  {
  }

  /** Bytes of any values, whatever their neighbours, read back as themselves. */
  lemma {:induction false} ReadsHexBytes(data: bytes, rest: string)
    ensures ReadCharacters(HexBytes(data) + ("\"" + rest)) == Some((Chars(data), rest))
  {
    var closing := "\"" + rest;
    if data == [] {
      ClosesLiteral(rest);
      assert HexBytes(data) + closing == closing;
    } else {
      ReadsHexBytes(data[1..], rest);
      StartsNoHexDigit(data[1..], rest);
      HexBytesHead(data, closing);
      ReadsByteThen(data[0], HexBytes(data[1..]) + closing, Chars(data[1..]), rest);
      assert Chars(data) == [data[0] as char] + Chars(data[1..]);
    }
  }

  /** A literal, and whatever adjacent literals follow it. */
  lemma LiteralThen(ws: string, body: string, value: string, after: string)
    requires AllSpace(ws) && ReadCharacters(body) == Some((value, after))
    ensures var next := SkipSpace(after);
            ReadLiterals(ws + ("\"" + body)) ==
            if next == "" || next[0] != '"' then Some(([value], after))
            else
              match ReadLiterals(after)
              case None => None
              case Some(more) => Some(([value] + more.0, more.1))
  {
    SkipsSpace(ws, "\"" + body);
    assert ("\"" + body)[1..] == body;
  }

  // --- The literals of a file ---

  function CharsEach(chunks: seq<bytes>): (values: seq<string>)
    ensures |values| == |chunks| && forall k | 0 <= k < |chunks| :: values[k] == Chars(chunks[k])
  {
    seq(|chunks|, k requires 0 <= k < |chunks| => Chars(chunks[k]))
  }

  /** Each piece is read as a literal of its own, and the literals are adjacent. */
  lemma {:induction false} ReadsChunks(chunks: seq<bytes>, rest: string)
    requires chunks != [] && Solid(rest) && rest[0] != '"'
    ensures ReadLiterals(OpenLiterals(chunks) + ("\"" + rest)) == Some((CharsEach(chunks), rest))
  {
    if |chunks| == 1 {
      ReadsLastChunk(chunks, rest);
    } else {
      ReadsChunks(chunks[1..], rest);
      ReadsChunk(chunks, "\"" + rest, CharsEach(chunks[1..]), rest);
      assert CharsEach(chunks) == [Chars(chunks[0])] + CharsEach(chunks[1..]);
    }
  }

  lemma ReadsLastChunk(chunks: seq<bytes>, rest: string)
    requires |chunks| == 1 && Solid(rest) && rest[0] != '"'
    ensures ReadLiterals(OpenLiterals(chunks) + ("\"" + rest)) == Some((CharsEach(chunks), rest))
  {
    var closing := "\"" + rest;
    ReadsHexBytes(chunks[0], rest);
    OpenHead(chunks, closing);
    LiteralThen("\n  ", HexBytes(chunks[0]) + closing, Chars(chunks[0]), rest);
    assert CharsEach(chunks) == [Chars(chunks[0])];
  }

  lemma ReadsChunk(chunks: seq<bytes>, closing: string, values: seq<string>, rest: string)
    requires |chunks| > 1 && ReadLiterals(OpenLiterals(chunks[1..]) + closing) == Some((values, rest))
    ensures ReadLiterals(OpenLiterals(chunks) + closing) == Some(([Chars(chunks[0])] + values, rest))
  {
    var next := OpenLiterals(chunks[1..]) + closing;
    ReadsHexBytes(chunks[0], next);
    OpenHead(chunks, closing);
    NextIsQuote(chunks[1..], closing);
    LiteralThen("\n  ", HexBytes(chunks[0]) + ("\"" + next), Chars(chunks[0]), next);
  }

  lemma OpenHead(chunks: seq<bytes>, closing: string)
    requires chunks != []
    ensures OpenLiterals(chunks) + closing
            == "\n  " + ("\"" + (HexBytes(chunks[0])
                                + if |chunks| == 1 then closing else "\"" + (OpenLiterals(chunks[1..]) + closing)))
  {
    if |chunks| == 1 {
      assert "" + closing == closing;
      Regroup(HexBytes(chunks[0]), "", closing);
    } else {
      var more := OpenLiterals(chunks[1..]);
      assert ("\"" + more) + closing == "\"" + (more + closing);
      Regroup(HexBytes(chunks[0]), "\"" + more, closing);
    }
  }

  lemma Regroup(hex: string, more: string, closing: string)
    ensures "\n  \"" + hex + more + closing == "\n  " + ("\"" + (hex + (more + closing)))
  {
  }

  lemma NextIsQuote(chunks: seq<bytes>, closing: string)
    requires chunks != []
    ensures Solid(SkipSpace(OpenLiterals(chunks) + closing)) && SkipSpace(OpenLiterals(chunks) + closing)[0] == '"'
  {
    var s := OpenLiterals(chunks) + closing;
    assert s == "\n  " + s[3..] && s[3] == '"';
    SkipsSpace("\n  ", s[3..]);
  }

  /** The pieces: as many as there are started groups of 16 bytes, all of 16 but the last, which
      has 1 to 16. */
  lemma {:induction false} ChunksShape(data: bytes)
    ensures |Chunks(data)| == (|data| + 15) / 16
    ensures forall k | 0 <= k < |Chunks(data)| - 1 :: |Chunks(data)[k]| == 16
    ensures data != [] ==> Chunks(data) != [] && 1 <= |Chunks(data)[|Chunks(data)| - 1]| <= 16
  {
    if |data| > 16 { ChunksShape(data[16..]); }
  }

  /** Together the pieces are the whole. */
  lemma {:induction false} ChunksTogether(data: bytes)
    ensures Concat(CharsEach(Chunks(data))) == Chars(data)
  {
    if data == [] {
    } else if |data| <= 16 {
      assert CharsEach([data])[1..] == [];
    } else {
      ChunksTogether(data[16..]);
      var rest := CharsEach(Chunks(data[16..]));
      assert CharsEach(Chunks(data)) == [Chars(data[..16])] + rest;
      assert ([Chars(data[..16])] + rest)[1..] == rest;
      assert Chars(data) == Chars(data[..16]) + Chars(data[16..]);
    }
  }

  // --- The literal of a name ---

  /** The name stands in a literal for itself. */
  predicate Verbatim(name: string) {
    forall k | 0 <= k < |name| :: name[k] != '"' && name[k] != '\\' && name[k] != '\n'
  }

  /** ... and a string made from the literal is all of it. */
  predicate Plain(name: string) {
    Verbatim(name) && forall k | 0 <= k < |name| :: NotNul(name[k])
  }

  lemma {:induction false} ReadsVerbatim(name: string, rest: string)
    requires Verbatim(name)
    ensures ReadCharacters(name + ("\"" + rest)) == Some((name, rest))
  {
    if name == "" {
      ClosesLiteral(rest);
      assert name + ("\"" + rest) == "\"" + rest;
    } else {
      ReadsVerbatim(name[1..], rest);
      assert (name + ("\"" + rest))[1..] == name[1..] + ("\"" + rest);
      assert name == [name[0]] + name[1..];
    }
  }

  lemma ReadsVerbatimLiteral(name: string, rest: string)
    requires Verbatim(name) && Solid(rest) && rest[0] != '"'
    ensures ReadLiterals("\"" + (name + ("\"" + rest))) == Some(([name], rest))
  {
    var body := name + ("\"" + rest);
    ReadsVerbatim(name, rest);
    assert "" + ("\"" + body) == "\"" + body;
    LiteralThen("", body, name, rest);
  }

  /** What follows the name of a file in the header: a quote, then something other than a literal,
      and no literal could go on there. */
  predicate ClosesName(tail: string) {
    && tail != "" && tail[0] == '"' && Solid(tail[1..]) && tail[1] != '"'
    && ReadCharacters(tail[1..]).None?
  }

  /** The first literal ends at the quote after the name, or at one inside it. */
  predicate Ends(name: string, tail: string, value: string, after: string)
    requires tail != ""
  {
    || (after == tail[1..] && |value| <= |name| && (|value| == |name| ==> Verbatim(name)))
    || exists k | 0 <= k <= |name| :: after == name[k..] + tail && |value| < k
  }

  lemma MunchInside(class_: char -> bool, name: string, tail: string)
    requires tail != "" && !class_(tail[0])
    ensures Munch(class_, name + tail) == Munch(class_, name)
  {
    var digits := Munch(class_, name);
    assert name + tail == digits + (name[|digits|..] + tail);
    MunchExact(class_, digits, name[|digits|..] + tail);
  }

  /** An escape that starts inside the name and does not take the quote after it stays inside. */
  lemma EscapeInside(name: string, tail: string) returns (m: nat)
    requires name != "" && tail != "" && tail[0] == '"' && ReadEscape(name + tail).Some?
    ensures 1 <= m <= |name| && ReadEscape(name + tail).value.1 == name[m..] + tail
  {
    var s := name + tail;
    if SimpleEscape(s[0]).Some? {
      m := 1;
    } else {
      m := EscapeLength(s);
      assert s[1..] == name[1..] + tail;
      MunchInside(IsHexDigit, name[1..], tail);
      MunchInside(IsOctalDigit, name, tail);
    }
    assert s[m..] == name[m..] + tail;
  }

  lemma {:induction false} FirstLiteral(name: string, tail: string, value: string, after: string)
    requires ClosesName(tail) && ReadCharacters(name + tail) == Some((value, after))
    ensures Ends(name, tail, value, after)
    decreases |name|
  {
    var s := name + tail;
    if name == "" {
      assert s == tail;
    } else if name[0] == '"' {
      assert after == name[1..] + tail;
    } else if name[0] == '\\' {
      EscapedFirst(name, tail, value, after);
    } else {
      assert s[1..] == name[1..] + tail;
      FirstLiteral(name[1..], tail, value[1..], after);
      EndsLater(name, 1, tail, value, after);
    }
  }

  lemma AfterEscape(s: string, value: string, after: string)
    requires s != "" && s[0] == '\\' && ReadCharacters(s) == Some((value, after))
    ensures ReadEscape(s[1..]).Some? && value != ""
    ensures ReadCharacters(ReadEscape(s[1..]).value.1) == Some((value[1..], after))
  {
  }

  /** A backslash at the end of the name takes the quote, and the literal does not end. */
  lemma LoneBackslash(tail: string)
    requires ClosesName(tail)
    ensures ReadCharacters("\\" + tail) == None
  {
    assert ("\\" + tail)[1..] == tail;
  }

  lemma NotLastBackslash(name: string, tail: string)
    requires ClosesName(tail) && name != "" && name[0] == '\\' && ReadCharacters(name + tail).Some?
    ensures |name| > 1
  {
    LoneBackslash(tail);
    assert |name| == 1 ==> name == "\\";
  }

  lemma EscapedFirst(name: string, tail: string, value: string, after: string)
    requires ClosesName(tail) && name != "" && name[0] == '\\'
    requires ReadCharacters(name + tail) == Some((value, after))
    ensures Ends(name, tail, value, after)
    decreases |name|, 0
  {
    var m := PastEscape(name, tail, value, after);
    FirstLiteral(name[m..], tail, value[1..], after);
    EndsLater(name, m, tail, value, after);
  }

  lemma PastEscape(name: string, tail: string, value: string, after: string) returns (m: nat)
    requires ClosesName(tail) && name != "" && name[0] == '\\'
    requires ReadCharacters(name + tail) == Some((value, after))
    ensures 2 <= m <= |name| && value != "" && ReadCharacters(name[m..] + tail) == Some((value[1..], after))
  {
    NotLastBackslash(name, tail);
    AfterEscape(name + tail, value, after);
    var later := name[1..];
    assert (name + tail)[1..] == later + tail;
    m := EscapeInside(later, tail);
    assert later[m..] == name[1 + m..];
    m := 1 + m;
  }

  /** One more character of the value for `d` of the name. */
  lemma EndsLater(name: string, d: nat, tail: string, value: string, after: string)
    requires tail != "" && 1 <= d <= |name| && value != "" && Ends(name[d..], tail, value[1..], after)
    requires d == 1 ==> name[0] != '"' && name[0] != '\\' && name[0] != '\n'
    ensures Ends(name, tail, value, after)
  {
    var later := name[d..];
    if k :| 0 <= k <= |later| && after == later[k..] + tail && |value[1..]| < k {
      assert later[k..] == name[d + k..];
    }
  }

  lemma {:induction false} SkipInside(name: string, tail: string) returns (m: nat)
    requires Solid(tail)
    ensures m <= |name| && SkipSpace(name + tail) == name[m..] + tail
  {
    if name != "" && IsSpace(name[0]) {
      assert (name + tail)[1..] == name[1..] + tail;
      m := SkipInside(name[1..], tail);
      m := m + 1;
    } else {
      m := 0;
    }
  }

  /** What the literals of a name declaration amount to is never longer than the name, and as long
      only if the name stands there for itself. */
  lemma {:induction false} LiteralsShorter(name: string, tail: string, values: seq<string>, after: string)
    requires ClosesName(tail) && ReadLiterals("\"" + (name + tail)) == Some((values, after))
    ensures |Concat(values)| <= |name| && (|Concat(values)| == |name| ==> Verbatim(name))
    decreases |name|
  {
    var body := name + tail;
    var s := "\"" + body;
    assert SkipSpace(s) == s && s[1..] == body;
    var (value, after') := ReadCharacters(body).value;
    FirstLiteral(name, tail, value, after');
    if |values| == 1 {
      assert Concat(values) == value + Concat(values[1..]) == value;
    } else {
      assert values[1..] == ReadLiterals(after').value.0;
      MoreLiterals(name, tail, value, after');
    }
  }

  lemma MoreLiterals(name: string, tail: string, value: string, after: string)
    requires ClosesName(tail) && Ends(name, tail, value, after)
    requires Solid(SkipSpace(after)) && SkipSpace(after)[0] == '"' && ReadLiterals(after).Some?
    ensures |value| + |Concat(ReadLiterals(after).value.0)| < |name|
    decreases |name|, 0
  {
    var k :| 0 <= k <= |name| && after == name[k..] + tail && |value| < k;
    var m := SkipInside(name[k..], tail);
    var next := name[k + m..] + tail;
    assert SkipSpace(after) == next && SkipSpace(next) == next;
    assert k + m == |name| ==> next == tail;
    var inner := name[k + m + 1..];
    assert next == "\"" + (inner + tail);
    LiteralsShorter(inner, tail, ReadLiterals(next).value.0, ReadLiterals(next).value.1);
  }
}
