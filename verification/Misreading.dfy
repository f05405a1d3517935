/**
 A header for files that do not print cannot be mistaken for what was meant: its
 table, if it compiles at all, is not the table that the files call for.
 */
module Misreading {
  import opened Bytes
  import opened CxxReader
  import opened CxxProgram
  import opened Header
  import opened Reading
  import opened RoundTrip
  import opened Lexing
  import opened Search
  import opened Parsing
  import opened Printed
  import opened Lookup

  // --- What is left after reading ---

  predicate IsSuffix(r: string, s: string) {
    |r| <= |s| && r == s[|s| - |r|..]
  }

  lemma SuffixTrans(a: string, b: string, c: string)
    requires IsSuffix(a, b) && IsSuffix(b, c)
    ensures IsSuffix(a, c)
  {
  }

  lemma DropIsSuffix(s: string, n: nat)
    requires n <= |s|
    ensures IsSuffix(s[n..], s)
  {
  }

  /** White space, then the rest. */
  lemma {:induction false} SkipSplits(s: string) returns (ws: string)
    ensures AllSpace(ws) && s == ws + SkipSpace(s)
  {
    if s != "" && IsSpace(s[0]) {
      var ws' := SkipSplits(s[1..]);
      ws := [s[0]] + ws';
      assert s == [s[0]] + s[1..];
    } else {
      ws := "";
    }
  }

  lemma SkipLeaves(s: string)
    ensures IsSuffix(SkipSpace(s), s)
  {
    var ws := SkipSplits(s);
  }

  lemma ExpectLeaves(token: string, s: string)
    requires Expect(token, s).Some?
    ensures IsSuffix(Expect(token, s).value, s)
  {
    SkipLeaves(s);
    DropIsSuffix(SkipSpace(s), |token|);
    SuffixTrans(Expect(token, s).value, SkipSpace(s), s);
  }

  lemma IdentifierLeaves(s: string)
    requires ReadIdentifier(s).Some?
    ensures IsSuffix(ReadIdentifier(s).value.1, s)
  {
    SkipLeaves(s);
    DropIsSuffix(SkipSpace(s), |Munch(IsWordChar, SkipSpace(s))|);
    SuffixTrans(ReadIdentifier(s).value.1, SkipSpace(s), s);
  }

  lemma NumberLeaves(s: string)
    requires ReadNumber(s).Some?
    ensures IsSuffix(ReadNumber(s).value.1, s)
  {
    SkipLeaves(s);
    DropIsSuffix(SkipSpace(s), |Munch(IsDigit, SkipSpace(s))|);
    SuffixTrans(ReadNumber(s).value.1, SkipSpace(s), s);
  }

  lemma {:induction false} CharactersLeave(s: string)
    requires ReadCharacters(s).Some?
    ensures IsSuffix(ReadCharacters(s).value.1, s)
    decreases |s|
  {
    var rest := ReadCharacters(s).value.1;
    if s[0] == '"' {
    } else if s[0] == '\\' {
      var next := ReadEscape(s[1..]).value.1;
      CharactersLeave(next);
      SuffixTrans(rest, next, s[1..]);
      SuffixTrans(rest, s[1..], s);
    } else {
      CharactersLeave(s[1..]);
      SuffixTrans(rest, s[1..], s);
    }
  }

  lemma {:induction false} LiteralsLeave(s: string)
    requires ReadLiterals(s).Some?
    ensures IsSuffix(ReadLiterals(s).value.1, s)
    decreases |s|
  {
    var t, rest := SkipSpace(s), ReadLiterals(s).value.1;
    SkipLeaves(s);
    CharactersLeave(t[1..]);
    var s' := ReadCharacters(t[1..]).value.1;
    SuffixTrans(s', t[1..], t);
    SuffixTrans(s', t, s);
    if rest != s' {
      LiteralsLeave(s');
      SuffixTrans(rest, s', s);
    }
  }

  lemma InitializerLeaves(p: Pieces, s: string)
    requires ReadInitializer(p, s).Some?
    ensures IsSuffix(ReadInitializer(p, s).value.1, s)
  {
    match Expect(p.construct, s)
    case None => LiteralsLeave(s);
    case Some(s1) =>
      ExpectLeaves(p.construct, s);
      LiteralsLeave(s1);
      var s2 := ReadLiterals(s1).value.1;
      SuffixTrans(s2, s1, s);
      ArgumentsLeave(s2, s);
  }

  lemma ArgumentsLeave(s2: string, s: string)
    requires IsSuffix(s2, s) && Expect(",", s2).Some? && ReadNumber(Expect(",", s2).value).Some?
    requires Expect(")", ReadNumber(Expect(",", s2).value).value.1).Some?
    ensures IsSuffix(Expect(")", ReadNumber(Expect(",", s2).value).value.1).value, s)
  {
    var s3 := Expect(",", s2).value;
    var s4 := ReadNumber(s3).value.1;
    var s5 := Expect(")", s4).value;
    ExpectLeaves(",", s2);
    NumberLeaves(s3);
    ExpectLeaves(")", s4);
    SuffixTrans(s3, s2, s);
    SuffixTrans(s4, s3, s);
    SuffixTrans(s5, s4, s);
  }

  lemma DeclLeaves(p: Pieces, s: string)
    requires ReadDecl(p, s).Some?
    ensures IsSuffix(ReadDecl(p, s).value.1, s)
  {
    var s1 := Expect(p.decl, s).value;
    var s2 := ReadIdentifier(s1).value.1;
    var s3 := Expect("=", s2).value;
    var s4 := ReadInitializer(p, s3).value.1;
    var s5 := Expect(";", s4).value;
    ExpectLeaves(p.decl, s);
    IdentifierLeaves(s1);
    SuffixTrans(s2, s1, s);
    ExpectLeaves("=", s2);
    SuffixTrans(s3, s2, s);
    InitializerLeaves(p, s3);
    SuffixTrans(s4, s3, s);
    ExpectLeaves(";", s4);
    SuffixTrans(s5, s4, s);
  }

  /** What is left to be read as the table is an end of the text, with no white space before it. */
  lemma {:induction false} DeclsLeave(p: Pieces, s: string)
    requires ReadDecls(p, s).Some?
    ensures var rest := ReadDecls(p, s).value.1;
            IsSuffix(rest, s) && SkipSpace(rest) == rest
    decreases |s|
  {
    if Expect(p.decl, s).None? {
      SkipLeaves(s);
    } else {
      var rest, s' := ReadDecls(p, s).value.1, ReadDecl(p, s).value.1;
      DeclLeaves(p, s);
      DeclsLeave(p, s');
      SuffixTrans(rest, s', s);
    }
  }

  // --- What can be read as a table ---

  lemma ExpectQuiet(token: string, s: string)
    requires Expect(token, s).Some? && '"' !in token && '"' !in Expect(token, s).value
    ensures '"' !in s
  {
    var ws := SkipSplits(s);
    assert s == ws + (token + Expect(token, s).value);
  }

  lemma IdentifierQuiet(s: string)
    requires ReadIdentifier(s).Some? && '"' !in ReadIdentifier(s).value.1
    ensures '"' !in s
  {
    var ws := SkipSplits(s);
    var word := Munch(IsWordChar, SkipSpace(s));
    assert s == ws + (word + ReadIdentifier(s).value.1);
  }

  lemma EntryQuiet(s: string)
    requires Expect("&", s).Some? && ReadIdentifier(Expect("&", s).value).Some?
    requires '"' !in ReadIdentifier(Expect("&", s).value).value.1
    ensures '"' !in s
  {
    IdentifierQuiet(Expect("&", s).value);
    ExpectQuiet("&", s);
  }

  lemma RowQuiet(p: Pieces, s: string)
    requires ReadRow(p, s).Some? && '"' !in p.nulls && '"' !in ReadRow(p, s).value.1
    ensures '"' !in s
  {
    var s1 := Expect("{", s).value;
    match Expect(p.nulls, s1) {
      case Some(s2) =>
        ExpectQuiet("}", s2);
        ExpectQuiet(p.nulls, s1);
      case None =>
        var s3 := ReadIdentifier(Expect("&", s1).value).value.1;
        var s4 := Expect(",", s3).value;
        var s6 := ReadIdentifier(Expect("&", s4).value).value.1;
        ExpectQuiet("}", s6);
        EntryQuiet(s4);
        ExpectQuiet(",", s3);
        EntryQuiet(s1);
    }
    ExpectQuiet("{", s);
  }

  lemma {:induction false} RowsQuiet(p: Pieces, s: string)
    requires ReadRows(p, s).Some? && '"' !in p.nulls && '"' !in ReadRows(p, s).value.1
    ensures '"' !in s
    decreases |s|
  {
    var s' := ReadRow(p, s).value.1;
    match Expect(",", s') {
      case None =>
      case Some(next) =>
        RowsQuiet(p, next);
        ExpectQuiet(",", s');
    }
    RowQuiet(p, s);
  }

  predicate Quiet(p: Pieces) {
    '"' !in p.table && '"' !in p.nulls && '"' !in p.after
  }

  /** There is no quote anywhere in what reads as a table up to the end. */
  lemma TableQuiet(p: Pieces, s: string)
    requires Quiet(p) && ReadTable(p, s).Some?
    ensures '"' !in s
  {
    var s1 := Expect(p.table, s).value;
    var s2 := ReadRows(p, s1).value.1;
    var s3 := Expect("};", s2).value;
    var s4 := Expect(p.after, s3).value;
    var ws := SkipSplits(s4);
    ExpectQuiet(p.after, s3);
    ExpectQuiet("};", s2);
    RowsQuiet(p, s1);
    ExpectQuiet(p.table, s);
  }

  // --- The table is found where it is ---

  /** `c` stands at index `b` of `t` and nowhere else. */
  predicate OnlyAt(t: string, c: char, b: nat) {
    b < |t| && t[b] == c && forall k | 0 <= k < |t| && k != b :: t[k] != c
  }

  /** What the proofs below use of the fixed text: nothing but the text of the table starts as it does. */
  ghost predicate Unmistakable(p: Pieces) {
    && Quiet(p) && p.table != "" && IsWordChar(p.table[0]) && !IsDigit(p.table[0])
    && (exists b :: OnlyAt(p.table, '[', b))
    && '[' !in p.nulls && '[' !in p.after
  }

  lemma RowLacks(l: Layout, i: nat, c: char)
    requires IsIdentifier(l.stems.name) && IsIdentifier(l.stems.data) && c == '['
    ensures c !in RowText(l, i)
  {
    DecDigits(i);
    assert c !in l.stems.name && c !in l.stems.data && c !in Dec(i);
  }

  lemma {:induction false} RowsLack(l: Layout, i: nat, n: nat, c: char)
    requires IsIdentifier(l.stems.name) && IsIdentifier(l.stems.data) && c == '['
    ensures c !in Rows(l, i, n)
    decreases n
  {
    if n > 0 {
      RowLacks(l, i, c);
      RowsLack(l, i + 1, n - 1, c);
    }
  }

  lemma TableOnce(l: Layout, n: nat, b: nat)
    requires Readable(l) && Unmistakable(l.p) && OnlyAt(l.p.table, '[', b)
    ensures OnlyAt(TableText(l, n), '[', b)
  {
    RowsLack(l, 1, n, '[');
    var rest := Rows(l, 1, n) + "  {" + l.p.nulls + "}\n" + "};\n\n" + l.p.after;
    assert '[' !in rest;
    assert TableText(l, n) == l.p.table + rest;
    assert forall k | |l.p.table| <= k < |TableText(l, n)| :: TableText(l, n)[k] == rest[k - |l.p.table|];
  }

  lemma StartsWhole(table: string, text: string, s: string, b: nat)
    requires OnlyAt(table, '[', b) && OnlyAt(text, '[', b) && IsSuffix(s, text) && table <= s
    ensures s == text
  {
    var d := |text| - |s|;
    assert s[b] == table[b] == '[' && s[b] == text[d + b];
    assert text[0..] == text;
  }

  /** What follows the last quote of the declarations. */
  function CountText(n: nat): string {
    ",\n  " + Dec(n) + ");\n\n"
  }

  lemma CountHasNoLetter(n: nat, k: nat)
    requires k < |CountText(n)|
    ensures !IsWordChar(CountText(n)[k]) || IsDigit(CountText(n)[k])
  {
    DecDigits(n);
  }

  lemma DeclsEndWith(l: Layout, i: nat, files: seq<File>) returns (x: string)
    requires files != []
    ensures Decls(l, i, files) == x + "\"" + CountText(|files[|files| - 1].data|)
  {
    var m := |files| - 1;
    var f := files[m];
    assert files == files[..m] + [f];
    DeclsSnoc(l, i, files[..m], f);
    var y := FileEndsWith(l, i + m, f);
    x := Decls(l, i, files[..m]) + y;
    JoinEnd(Decls(l, i, files[..m]), y, CountText(|f.data|));
  }

  lemma JoinEnd(a: string, y: string, count: string)
    ensures a + (y + "\"" + count) == a + y + "\"" + count
  {
  }

  lemma FileEndsWith(l: Layout, i: nat, f: File) returns (y: string)
    ensures FileText(l, i, f) == y + "\"" + CountText(|f.data|)
  {
    var name := NameDecl(l, i, f.name);
    var head, lits := l.p.decl + l.stems.data + Dec(i) + " = " + l.p.construct, OpenLiterals(Chunks(f.data));
    CountRegroup(name, head, lits, Dec(|f.data|));
    y := name + (head + lits);
  }

  lemma CountRegroup(name: string, head: string, lits: string, n: string)
    ensures name + (head + (lits + "\"") + ",\n  " + n + ");\n\n")
            == name + (head + lits) + "\"" + (",\n  " + n + ");\n\n")
  {
    var count := ",\n  " + n + ");\n\n";
    assert head + (lits + "\"") + ",\n  " + n + ");\n\n" == head + lits + "\"" + count;
  }

  /** A quiet end of a text lies behind its last quote. */
  lemma BehindQuote(x: string, y: string, s: string)
    requires IsSuffix(s, x + "\"" + y) && '"' !in s
    ensures IsSuffix(s, y)
  {
    var t := x + "\"" + y;
    var d := |t| - |s|;
    assert t[|x|] == '"';
    assert forall k | d <= k < |t| :: t[k] == s[k - d];
    assert t[|x| + 1..] == y;
    assert s == y[d - |x| - 1..];
  }

  lemma BehindCount(count: string, text: string, s: string)
    requires IsSuffix(s, count + text) && s != "" && IsWordChar(s[0]) && !IsDigit(s[0])
    requires forall k | 0 <= k < |count| :: !IsWordChar(count[k]) || IsDigit(count[k])
    ensures IsSuffix(s, text)
  {
    var t := count + text;
    var d := |t| - |s|;
    assert s[0] == t[d];
    assert d >= |count|;
    assert t[d..] == text[d - |count|..];
  }

  lemma LiesInTable(l: Layout, files: seq<File>, s: string)
    requires Unmistakable(l.p) && files != [] && s != "" && s[0] == l.p.table[0] && '"' !in s
    requires IsSuffix(s, Decls(l, 1, files) + TableText(l, |files|))
    ensures IsSuffix(s, TableText(l, |files|))
  {
    var table, n := TableText(l, |files|), |files[|files| - 1].data|;
    var x := DeclsEndWith(l, 1, files);
    var count := CountText(n);
    QuoteRegroup(x, count, table);
    BehindQuote(x, count + table, s);
    forall k | 0 <= k < |count| ensures !IsWordChar(count[k]) || IsDigit(count[k]) {
      CountHasNoLetter(n, k);
    }
    BehindCount(count, table, s);
  }

  lemma QuoteRegroup(x: string, count: string, table: string)
    ensures x + "\"" + count + table == x + "\"" + (count + table)
  {
  }

  lemma StartsAsTable(p: Pieces, s: string)
    requires p.table != "" && SkipSpace(s) == s && ReadTable(p, s).Some?
    ensures p.table <= s && s[0] == p.table[0]
  {
  }

  /** However the declarations were read: what then reads as the table is the table. */
  lemma TableIsFound(l: Layout, files: seq<File>, s: string)
    requires Readable(l) && Unmistakable(l.p) && files != []
    requires IsSuffix(s, Decls(l, 1, files) + TableText(l, |files|))
    requires SkipSpace(s) == s && ReadTable(l.p, s).Some?
    ensures s == TableText(l, |files|)
  {
    StartsAsTable(l.p, s);
    TableQuiet(l.p, s);
    LiesInTable(l, files, s);
    var b :| OnlyAt(l.p.table, '[', b);
    TableOnce(l, |files|, b);
    StartsWhole(l.p.table, TableText(l, |files|), s, b);
  }

  // --- The values bound ---

  /** The environment gives every declared constant its value. */
  predicate Binds(env: map<string, string>, decls: seq<Decl>) {
    forall k | 0 <= k < |decls| :: decls[k].name in env && env[decls[k].name] == decls[k].value
  }

  lemma {:induction false} BindBinds(decls: seq<Decl>)
    requires Bind(decls).Some?
    ensures Binds(Bind(decls).value, decls)
  {
    if decls != [] {
      BindBinds(decls[1..]);
      var rest := Bind(decls[1..]).value;
      assert forall k | 0 < k < |decls| :: decls[k] == decls[1..][k - 1];
    }
  }

  lemma {:induction false} ResolvedHolds(l: Layout, i: nat, files: seq<File>, env: map<string, string>)
    requires Resolve(env, TABLE.members, MeantRows(l, i, |files|)) == Some(TableOf(files))
    ensures Holds(l, i, files, env)
    decreases files
  {
    if files != [] {
      ResolvedFirst(l, i, files, env);
      ResolvedHolds(l, i + 1, files[1..], env);
    }
  }

  lemma ResolvedFirst(l: Layout, i: nat, files: seq<File>, env: map<string, string>)
    requires files != [] && Resolve(env, TABLE.members, MeantRows(l, i, |files|)) == Some(TableOf(files))
    ensures HoldsFile(l, i, files[0], env)
    ensures Resolve(env, TABLE.members, MeantRows(l, i + 1, |files[1..]|)) == Some(TableOf(files[1..]))
  {
    var rows := MeantRows(l, i, |files|);
    assert rows[1..] == MeantRows(l, i + 1, |files[1..]|);
    var more := Resolve(env, TABLE.members, rows[1..]).value;
    assert TableOf(files) == [TableOf(files)[0]] + more;
    assert TableOf(files)[1..] == more;
    assert TableOf(files)[1..] == TableOf(files[1..]);
    RowHolds(l, i, files[0], env);
  }

  lemma RowHolds(l: Layout, i: nat, f: File, env: map<string, string>)
    requires Follow(env, TABLE.members, Entry(Id(l.stems.name, i), Id(l.stems.data, i))) == Some(RowOf(f))
    ensures HoldsFile(l, i, f, env)
  {
    var a, b := Id(l.stems.name, i), Id(l.stems.data, i);
    var row := map["name" := Some(env[a]), "data" := Some(env[b])];
    assert row["name"] == RowOf(f)["name"] && row["data"] == RowOf(f)["data"];
  }

  // --- Exactly when ---

  lemma FirstIsName(l: Layout, ws: string, i: nat, name: string, rest: string)
    requires Readable(l) && AllSpace(ws) && ReadDecls(l.p, ws + (NameDecl(l, i, name) + rest)).Some?
    ensures var decls := ReadDecls(l.p, ws + (NameDecl(l, i, name) + rest)).value.0;
            decls != [] && decls[0].name == Id(l.stems.name, i)
  {
    var more := NameDeclHead(l, i, name, rest);
    DeclIsRead(l, ws, more);
    NameDeclReads(l, ws, i, name, rest);
  }

  lemma FirstHeldIsPrintable(l: Layout, ws: string, i: nat, files: seq<File>, tail: string, env: map<string, string>)
    requires Readable(l) && AllSpace(ws) && files != [] && Holds(l, i, files, env)
    requires var r := ReadDecls(l.p, ws + (Decls(l, i, files) + tail)); r.Some? && Binds(env, r.value.0)
    ensures Printable(files[0])
    ensures var r := ReadDecls(l.p, "\n\n" + (Decls(l, i + 1, files[1..]) + tail)); r.Some? && Binds(env, r.value.0)
  {
    var f, rest := files[0], Decls(l, i + 1, files[1..]) + tail;
    DeclsHead(l, i, files, tail);
    FirstIsName(l, ws, i, f.name, DataDecl(l, i, f.data) + rest);
    FileMustBePrintable(l, ws, i, f, rest);
    FileReads(l, ws, i, f, rest);
    BindsLater(env, Decl(Id(l.stems.name, i), f.name), Decl(Id(l.stems.data, i), Chars(f.data)),
               ReadDecls(l.p, "\n\n" + rest));
  }

  lemma BindsLater(env: map<string, string>, first: Decl, second: Decl, r: Option<(seq<Decl>, string)>)
    requires var both := Prepend(first, Prepend(second, r)); both.Some? && Binds(env, both.value.0)
    ensures r.Some? && Binds(env, r.value.0)
  {
    var read := r.value.0;
    assert forall k | 0 <= k < |read| :: ([first] + ([second] + read))[k + 2] == read[k];
  }

  /** Only of printable files does the environment hold what was meant. */
  lemma {:induction false} HeldIsPrintable(l: Layout, ws: string, i: nat, files: seq<File>, tail: string,
                                           env: map<string, string>)
    requires Readable(l) && AllSpace(ws) && Holds(l, i, files, env)
    requires var r := ReadDecls(l.p, ws + (Decls(l, i, files) + tail)); r.Some? && Binds(env, r.value.0)
    ensures forall k | 0 <= k < |files| :: Printable(files[k])
    decreases files
  {
    if files != [] {
      FirstHeldIsPrintable(l, ws, i, files, tail, env);
      HeldIsPrintable(l, "\n\n", i + 1, files[1..], tail, env);
      assert forall k | 0 < k < |files| :: files[k] == files[1..][k - 1];
    }
  }

  lemma LoadedIsPrintable(l: Layout, files: seq<File>)
    requires Readable(l) && Declares(l.p) && Unmistakable(l.p) && files != []
    requires Load(l.p, HeaderText(l, files)) == Some(Compiled(files))
    ensures forall k | 0 <= k < |files| :: Printable(files[k])
  {
    var decls, rows := Loaded(l.p, HeaderText(l, files), TableOf(files));
    RowsAreMeant(l, files, decls, rows);
    BoundIsPrintable(l, files, decls);
  }

  lemma Loaded(p: Pieces, text: string, table: seq<Fields>) returns (decls: seq<Decl>, rows: seq<Row>)
    requires Declares(p) && Load(p, text).Some? && Load(p, text).value.rows == table
    ensures ReadHeader(p, text) == Some((decls, rows)) && Bind(decls).Some?
    ensures Resolve(Bind(decls).value, TABLE.members, rows) == Some(table)
  {
    var r := ReadHeader(p, text).value;
    decls, rows := r.0, r.1;
  }

  /** If the header reads at all, its rows are the printed ones. */
  lemma RowsAreMeant(l: Layout, files: seq<File>, decls: seq<Decl>, rows: seq<Row>)
    requires Readable(l) && Unmistakable(l.p) && files != []
    requires ReadHeader(l.p, HeaderText(l, files)) == Some((decls, rows))
    ensures rows == MeantRows(l, 1, |files|)
    ensures var r := ReadDecls(l.p, "" + (Decls(l, 1, files) + TableText(l, |files|)));
            r.Some? && r.value.0 == decls
  {
    var table := TableText(l, |files|);
    var s := "" + (Decls(l, 1, files) + table);
    HeaderRegroup(l, files);
    HeaderSteps(l.p, s);
    DeclsLeave(l.p, s);
    assert s == Decls(l, 1, files) + table;
    TableIsFound(l, files, ReadDecls(l.p, s).value.1);
    TableReads(l, |files|);
  }

  lemma BoundIsPrintable(l: Layout, files: seq<File>, decls: seq<Decl>)
    requires Readable(l) && Bind(decls).Some?
    requires var r := ReadDecls(l.p, "" + (Decls(l, 1, files) + TableText(l, |files|))); r.Some? && r.value.0 == decls
    requires Resolve(Bind(decls).value, TABLE.members, MeantRows(l, 1, |files|)) == Some(TableOf(files))
    ensures forall k | 0 <= k < |files| :: Printable(files[k])
  {
    BindBinds(decls);
    var env := Bind(decls).value;
    ResolvedHolds(l, 1, files, env);
    HeldIsPrintable(l, "", 1, files, TableText(l, |files|), env);
  }

  /** The compiled header has the table that the files call for exactly when every name is plain and no
      file is empty. */
  lemma LoadIff(l: Layout, files: seq<File>)
    requires Readable(l) && Declares(l.p) && Unmistakable(l.p)
    ensures Load(l.p, HeaderText(l, files)) == Some(Compiled(files))
            <==> forall k | 0 <= k < |files| :: Printable(files[k])
  {
    if forall k | 0 <= k < |files| :: Printable(files[k]) {
      LoadsTable(l, files);
    } else if Load(l.p, HeaderText(l, files)) == Some(Compiled(files)) {
      LoadedIsPrintable(l, files);
    }
  }

  // --- The generator's own layout ---

  /** What has tokens has no quote in it. */
  lemma {:induction false} LexQuiet(s: string)
    requires Lex(s).Some?
    ensures '"' !in s
    decreases |s|
  {
    if s != "" {
      if |s| >= 2 && s[0] == '\n' && s[1] == '#' {
        LexQuiet(s[2..]);
        assert s == [s[0], s[1]] + s[2..];
      } else if IsSpace(s[0]) {
        LexQuiet(s[1..]);
        assert s == [s[0]] + s[1..];
      } else {
        var n := TokenLength(s);
        LexQuiet(s[n..]);
        TokenLacks(s, '"');
        assert s == s[..n] + s[n..];
      }
    }
  }

  /** Neither in a word nor in a pair. */
  predicate Alone(c: char) {
    !IsWordChar(c) && (forall a :: !IsPair(c, a) && !IsPair(a, c))
  }

  lemma TokenLacks(s: string, c: char)
    requires s != "" && TokenLength(s) > 0 && Alone(c)
    ensures c in s[..TokenLength(s)] ==> s[..TokenLength(s)] == [c] && IsPunctuation(c)
  {
    var n := TokenLength(s);
    var token := s[..n];
    if IsWordChar(s[0]) {
      var word := Munch(IsWordChar, s);
      assert token == word;
    } else if n == 2 {
      assert token == [s[0], s[1]];
    } else {
      assert token == [s[0]];
    }
  }

  /** There are as many brackets in a text as among its tokens. */
  lemma {:induction false} LexCount(s: string)
    requires Lex(s).Some?
    ensures multiset(s)['['] == multiset(Lex(s).value)["["]
    decreases |s|
  {
    if s != "" {
      if |s| >= 2 && s[0] == '\n' && s[1] == '#' {
        LexCount(s[2..]);
        CountNext(s, 2, "#", Lex(s[2..]).value);
      } else if IsSpace(s[0]) {
        LexCount(s[1..]);
        CountSame(s);
      } else {
        var n := TokenLength(s);
        LexCount(s[n..]);
        TokenLacks(s, '[');
        CountNext(s, n, s[..n], Lex(s[n..]).value);
      }
    }
  }

  lemma CountNext(s: string, n: nat, token: string, ts: Tokens)
    requires n <= |s| && multiset(s[n..])['['] == multiset(ts)["["]
    requires if token == "[" then s[..n] == "[" else '[' !in s[..n]
    ensures multiset(s)['['] == multiset([token] + ts)["["]
  {
    assert s == s[..n] + s[n..];
    assert multiset(s) == multiset(s[..n]) + multiset(s[n..]);
    assert token == "[" ==> multiset(s[..n]) == multiset{'['};
  }

  lemma CountSame(s: string)
    requires s != "" && s[0] != '['
    ensures multiset(s)['['] == multiset(s[1..])['[']
  {
    assert s == [s[0]] + s[1..];
  }

  lemma {:induction false} CountOne(s: string, c: char) returns (b: nat)
    requires multiset(s)[c] == 1
    ensures OnlyAt(s, c, b)
  {
    b :| 0 <= b < |s| && s[b] == c;
    assert s == s[..b] + [c] + s[b + 1..];
    assert multiset(s) == multiset(s[..b]) + multiset{c} + multiset(s[b + 1..]);
    forall k | 0 <= k < |s| && k != b ensures s[k] != c {
      assert k < b ==> s[k] in multiset(s[..b]) by { assert k < b ==> s[..b][k] == s[k]; }
      assert k > b ==> s[k] in multiset(s[b + 1..]) by { assert k > b ==> s[b + 1..][k - b - 1] == s[k]; }
    }
  }

  predicate NoBracket(ts: Tokens) {
    forall k | 0 <= k < |ts| :: ts[k] != "["
  }

  lemma MemberBrackets(name: string, rest: Tokens)
    requires name != "[" && NoBracket(rest)
    ensures NoBracket(MEMBERS + ([name] + ([";"] + rest)))
  {
  }

  lemma StructBrackets(rest: Tokens)
    requires NoBracket(rest)
    ensures NoBracket(["static", "const", "struct"] + (["embedded_file"] + (["{"] + rest)))
  {
  }

  lemma TableBrackets()
    ensures multiset(TableTokens())["["] == 1
  {
    var last := ["}"] + ["embedded_files"];
    var data := MEMBERS + (["data"] + ([";"] + last));
    var name := MEMBERS + (["name"] + ([";"] + data));
    var before := ["static", "const", "struct"] + (["embedded_file"] + (["{"] + name));
    MemberBrackets("data", last);
    MemberBrackets("name", data);
    StructBrackets(name);
    TableSplits();
    OneBracket(before, ["]", "=", "{"]);
  }

  lemma OneBracket(before: Tokens, after: Tokens)
    requires NoBracket(before) && NoBracket(after)
    ensures multiset(before + (["["] + after))["["] == 1
  {
    assert "[" !in before && "[" !in after;
  }

  lemma TableSplits()
    ensures TableTokens()
            == ["static", "const", "struct"] + (["embedded_file"] + (["{"] + (
                 MEMBERS + (["name"] + ([";"] + (MEMBERS + (["data"] + ([";"] + (["}"] + ["embedded_files"])))))))))
               + (["["] + ["]", "=", "{"])
  {
  }

  lemma CodeBrackets()
    ensures NoBracket(FunctionTokens(END_TOKENS))
  {
    var last := ASSIGN + (RETURN_TRUE + (["}"] + (["}"] + (RETURN_FALSE + (["}"] + END_TOKENS)))));
    assert NoBracket(last);
    MatchBrackets(last);
    LoopBrackets(MatchHead(last));
    DeclareBrackets(LoopHead(MatchHead(last)));
    FunctionBrackets(DeclareTokens(LoopHead(MatchHead(last))));
  }

  lemma MatchBrackets(body: Tokens)
    requires NoBracket(body)
    ensures NoBracket(MatchHead(body))
  {
  }

  lemma LoopBrackets(body: Tokens)
    requires NoBracket(body)
    ensures NoBracket(LoopHead(body))
  {
  }

  lemma DeclareBrackets(body: Tokens)
    requires NoBracket(body)
    ensures NoBracket(DeclareTokens(body))
  {
  }

  lemma FunctionBrackets(body: Tokens)
    requires NoBracket(body)
    ensures NoBracket(FunctionHead(body))
  {
  }

  /** Read off the tokens: nothing but the table can be taken for the table. */
  lemma TokensAreUnmistakable(p: Pieces, ts: Tokens, us: Tokens, vs: Tokens)
    requires Lex(p.table) == Some(ts) && multiset(ts)["["] == 1
    requires Lex(p.after) == Some(us) && NoBracket(us) && Lex(p.nulls) == Some(vs) && NoBracket(vs)
    requires p.table != "" && IsWordChar(p.table[0]) && !IsDigit(p.table[0])
    ensures Unmistakable(p)
  {
    LexQuiet(p.table);
    LexQuiet(p.nulls);
    LexQuiet(p.after);
    LexCount(p.table);
    var b := CountOne(p.table, '[');
    LexCount(p.after);
    LexCount(p.nulls);
    assert "[" !in us && "[" !in vs;
  }

  lemma PiecesAreUnmistakable()
    ensures Unmistakable(PIECES)
  {
    PrintedTable();
    TableBrackets();
    PrintedCode();
    CodeBrackets();
    PrintedNulls();
    TableIsNoDecl();
    TableStarts();
    NullBrackets();
    TokensAreUnmistakable(PIECES, TableTokens(), FunctionTokens(END_TOKENS), ["NULL"] + ([","] + (["NULL"] + [])));
  }

  lemma TableStarts()
    ensures PIECES.table != "" && PIECES.table[0] == 's'
  {
    var first := "static const struct ";
    assert PIECES.table[0] == first[0];
  }

  lemma NullBrackets()
    ensures NoBracket(["NULL"] + ([","] + (["NULL"] + [])))
  {
  }

  /** The generator's header compiles to what the files call for exactly when every name is plain and no
      file is empty. */
  lemma GeneratedLoadIff(files: seq<File>)
    ensures Load(PIECES, HeaderText(LAYOUT, files)) == Some(Compiled(files))
            <==> forall k | 0 <= k < |files| :: Plain(files[k].name) && files[k].data != []
  {
    LayoutIsReadable();
    PrintedUnit();
    PiecesAreUnmistakable();
    LoadIff(LAYOUT, files);
    assert forall k | 0 <= k < |files| :: Printable(files[k]) == (Plain(files[k].name) && files[k].data != []);
  }
}
