/**
 Reading the generated header back: the declarations and the table that were
 meant, for exactly those files whose name and contents the generator can print.
 */
module RoundTrip {
  import opened Bytes
  import opened CxxReader
  import opened Header
  import opened Reading

  /** What the proofs use of the fixed text. */
  predicate Readable(l: Layout) {
    && Solid(l.p.before) && Solid(l.p.decl) && Solid(l.p.construct)
    && Solid(l.p.table) && Solid(l.p.nulls) && Solid(l.p.after)
    && l.p.construct[0] != '"' && l.p.nulls[0] != '&'
    && (exists k | 0 <= k < |l.p.decl| && k < |l.p.table| :: l.p.decl[k] != l.p.table[k])
    && IsIdentifier(l.stems.name) && IsIdentifier(l.stems.data)
    && |l.stems.name| == |l.stems.data| && l.stems.name != l.stems.data
  }

  /** The name of a numbered constant. */
  function Id(stem: string, i: nat): string {
    stem + Dec(i)
  }

  lemma IdIsIdentifier(stem: string, i: nat)
    requires IsIdentifier(stem)
    ensures IsIdentifier(Id(stem, i))
  {
    DecDigits(i);
  }

  // --- What is meant ---

  function MeantDecls(l: Layout, i: nat, files: seq<File>): seq<Decl>
    decreases files
  {
    if files == [] then []
    else
      [Decl(Id(l.stems.name, i), files[0].name)]
      + ([Decl(Id(l.stems.data, i), Chars(files[0].data))] + MeantDecls(l, i + 1, files[1..]))
  }

  function MeantRows(l: Layout, i: nat, n: nat): seq<Row>
    decreases n
  {
    if n == 0 then [Null] else [Entry(Id(l.stems.name, i), Id(l.stems.data, i))] + MeantRows(l, i + 1, n - 1)
  }

  function Meant(l: Layout, files: seq<File>): (seq<Decl>, seq<Row>) {
    (MeantDecls(l, 1, files), MeantRows(l, 1, |files|))
  }

  /** The generator can print the file: it prints names as they are, and never opens a literal for no bytes. */
  predicate Printable(f: File) {
    Plain(f.name) && f.data != []
  }

  // --- A name declaration ---

  /** What is left to read after the `=` of a declaration. */
  function ReadRest(p: Pieces, id: string, s: string): Option<(Decl, string)> {
    var (value, s) :- ReadInitializer(p, s);
    var s :- Expect(";", s);
    Some((Decl(id, value), s))
  }

  lemma DeclSteps(p: Pieces, s: string, s1: string, id: string, s2: string, s3: string)
    requires Expect(p.decl, s) == Some(s1) && ReadIdentifier(s1) == Some((id, s2)) && Expect("=", s2) == Some(s3)
    ensures ReadDecl(p, s) == ReadRest(p, id, s3)
  {
  }

  lemma ReadsHead(l: Layout, ws: string, stem: string, i: nat, rest: string)
    requires Readable(l) && AllSpace(ws) && IsIdentifier(stem)
    ensures ReadDecl(l.p, ws + (l.p.decl + (Id(stem, i) + (" =" + rest)))) == ReadRest(l.p, Id(stem, i), rest)
  {
    var id, s := Id(stem, i), " =" + rest;
    IdIsIdentifier(stem, i);
    ExpectHere(ws, l.p.decl, id + s);
    ReadsIdentifierNow(id, s);
    assert s == " " + ("=" + rest);
    ExpectHere(" ", "=", rest);
    DeclSteps(l.p, ws + (l.p.decl + (id + s)), id + s, id, s, rest);
  }

  lemma ReadsIdentifierNow(id: string, rest: string)
    requires IsIdentifier(id) && (rest != "" ==> !IsWordChar(rest[0]))
    ensures ReadIdentifier(id + rest) == Some((id, rest))
  {
    assert "" + (id + rest) == id + rest;
    ReadsIdentifier("", id, rest);
  }

  function NameTail(rest: string): string {
    "\";\n" + rest
  }

  lemma NameTailCloses(rest: string)
    ensures ClosesName(NameTail(rest))
  {
    var after := NameTail(rest)[1..];
    assert after == ";\n" + rest;
    assert after[1..] == "\n" + rest;
    assert ReadCharacters(after[1..]) == None;
  }

  /** A name declaration is read through the literals that start at its quote. */
  lemma NameDeclReads(l: Layout, ws: string, i: nat, name: string, rest: string)
    requires Readable(l) && AllSpace(ws)
    ensures ReadDecl(l.p, ws + (NameDecl(l, i, name) + rest)) ==
            ReadRest(l.p, Id(l.stems.name, i), " " + ("\"" + (name + NameTail(rest))))
  {
    var id, s := Id(l.stems.name, i), " " + ("\"" + (name + NameTail(rest)));
    assert NameDecl(l, i, name) + rest == l.p.decl + (id + (" =" + s));
    ReadsHead(l, ws, l.stems.name, i, s);
  }

  lemma NameInitializer(l: Layout, name: string, rest: string)
    requires Readable(l)
    ensures var lit := ReadLiterals("\"" + (name + NameTail(rest)));
            ReadInitializer(l.p, " " + ("\"" + (name + NameTail(rest)))) ==
            if lit.None? then None else Some((Munch(NotNul, Concat(lit.value.0)), lit.value.1))
  {
    var s := "\"" + (name + NameTail(rest));
    ExpectOther(" ", l.p.construct, s);
    SkipsSpace(" ", s);
    assert SkipSpace(s) == s;
  }

  /** A plain name is read back. */
  lemma PlainNameReads(l: Layout, ws: string, i: nat, name: string, rest: string)
    requires Readable(l) && AllSpace(ws) && Plain(name)
    ensures ReadDecl(l.p, ws + (NameDecl(l, i, name) + rest)) == Some((Decl(Id(l.stems.name, i), name), "\n" + rest))
  {
    NameDeclReads(l, ws, i, name, rest);
    PlainRest(l, Id(l.stems.name, i), name, rest);
  }

  lemma PlainRest(l: Layout, id: string, name: string, rest: string)
    requires Readable(l) && Plain(name)
    ensures ReadRest(l.p, id, " " + ("\"" + (name + NameTail(rest)))) == Some((Decl(id, name), "\n" + rest))
  {
    PlainInitializer(l, name, rest);
    assert ";\n" + rest == ";" + ("\n" + rest);
    ExpectNow(";", "\n" + rest);
    RestSteps(l.p, id, " " + ("\"" + (name + NameTail(rest))), name, ";\n" + rest, "\n" + rest);
  }

  lemma RestSteps(p: Pieces, id: string, s: string, value: string, s1: string, s2: string)
    requires ReadInitializer(p, s) == Some((value, s1)) && Expect(";", s1) == Some(s2)
    ensures ReadRest(p, id, s) == Some((Decl(id, value), s2))
  {
  }

  lemma PlainInitializer(l: Layout, name: string, rest: string)
    requires Readable(l) && Plain(name)
    ensures ReadInitializer(l.p, " " + ("\"" + (name + NameTail(rest)))) == Some((name, ";\n" + rest))
  {
    NameInitializer(l, name, rest);
    ReadsVerbatimLiteral(name, ";\n" + rest);
    assert NameTail(rest) == "\"" + (";\n" + rest);
    assert Concat([name]) == name + Concat([name][1..]) == name;
    assert name + "" == name;
    MunchExact(NotNul, name, "");
  }

  /** Only a plain name is read back. */
  lemma OnlyPlainNameReads(l: Layout, ws: string, i: nat, name: string, rest: string)
    requires Readable(l) && AllSpace(ws)
    requires var r := ReadDecl(l.p, ws + (NameDecl(l, i, name) + rest)); r.Some? && r.value.0.value == name
    ensures Plain(name)
  {
    NameDeclReads(l, ws, i, name, rest);
    NameInitializer(l, name, rest);
    NameTailCloses(rest);
    var lit := ReadLiterals("\"" + (name + NameTail(rest)));
    LiteralsShorter(name, NameTail(rest), lit.value.0, lit.value.1);
  }

  // --- A data declaration ---

  /** What follows the literals of a data declaration, up to its semicolon. */
  function CountTail(n: nat, rest: string): string {
    ",\n  " + (Dec(n) + (")" + rest))
  }

  /** What follows the `=` of a data declaration. */
  function DataInit(l: Layout, data: bytes, rest: string): string {
    " " + (l.p.construct + (OpenLiterals(Chunks(data)) + ("\"" + CountTail(|data|, rest))))
  }

  lemma DataDeclReads(l: Layout, ws: string, i: nat, data: bytes, rest: string)
    requires Readable(l) && AllSpace(ws)
    ensures ReadDecl(l.p, ws + (DataDecl(l, i, data) + rest))
            == ReadRest(l.p, Id(l.stems.data, i), DataInit(l, data, ";\n\n" + rest))
  {
    DataDeclRegroup(l, i, data, rest);
    ReadsHead(l, ws, l.stems.data, i, DataInit(l, data, ";\n\n" + rest));
  }

  lemma DataDeclRegroup(l: Layout, i: nat, data: bytes, rest: string)
    ensures DataDecl(l, i, data) + rest
            == l.p.decl + (Id(l.stems.data, i) + (" =" + DataInit(l, data, ";\n\n" + rest)))
  {
    var lits, n := OpenLiterals(Chunks(data)), Dec(|data|);
    CountTailRegroup(n, rest);
    var a := ",\n  " + n + ");\n\n" + rest;
    InitRegroup(l.p.construct, lits, a);
    HeadRegroup(l.p.decl, l.stems.data, Dec(i), l.p.construct, lits + "\"", ",\n  ", n, rest);
  }

  lemma CountTailRegroup(n: string, rest: string)
    ensures ",\n  " + n + ");\n\n" + rest == ",\n  " + (n + (")" + (";\n\n" + rest)))
  {
  }

  lemma InitRegroup(construct: string, lits: string, tail: string)
    ensures " = " + construct + (lits + "\"") + tail == " =" + (" " + (construct + (lits + ("\"" + tail))))
  {
  }

  lemma HeadRegroup(decl: string, stem: string, i: string, construct: string, text: string, comma: string,
                    n: string, rest: string)
    ensures decl + stem + i + " = " + construct + text + comma + n + ");\n\n" + rest
            == decl + ((stem + i) + (" = " + construct + text + (comma + n + ");\n\n" + rest)))
  {
    var init := " = " + construct + text;
    var tail := comma + n + ");\n\n" + rest;
    assert decl + stem + i + " = " + construct + text == decl + (stem + i) + init;
    assert decl + (stem + i) + init + comma + n + ");\n\n" + rest == decl + (stem + i) + init + tail;
  }

  lemma InitializerSteps(p: Pieces, s: string, s1: string, values: seq<string>, s2: string, s3: string,
                         count: nat, s4: string, s5: string, value: string)
    requires Expect(p.construct, s) == Some(s1) && ReadLiterals(s1) == Some((values, s2)) && Expect(",", s2) == Some(s3)
    requires ReadNumber(s3) == Some((count, s4)) && Expect(")", s4) == Some(s5)
    requires FirstOf(Concat(values), count) == Some(value)
    ensures ReadInitializer(p, s) == Some((value, s5))
  {
  }

  lemma CountTailReads(n: nat, rest: string)
    ensures Expect(",", CountTail(n, rest)) == Some("\n  " + (Dec(n) + (")" + rest)))
    ensures ReadNumber("\n  " + (Dec(n) + (")" + rest))) == Some((n, ")" + rest))
    ensures Expect(")", ")" + rest) == Some(rest)
  {
    var s := Dec(n) + (")" + rest);
    assert CountTail(n, rest) == "," + ("\n  " + s);
    ExpectNow(",", "\n  " + s);
    ReadsNumber("\n  ", n, ")" + rest);
    ExpectNow(")", rest);
  }

  /** The bytes of a file that has any are read back. */
  lemma DataInitializer(l: Layout, data: bytes, rest: string)
    requires Readable(l) && data != []
    ensures ReadInitializer(l.p, DataInit(l, data, rest)) == Some((Chars(data), rest))
  {
    var n, values := |data|, CharsEach(Chunks(data));
    var tail := CountTail(n, rest);
    var s1 := OpenLiterals(Chunks(data)) + ("\"" + tail);
    ExpectHere(" ", l.p.construct, s1);
    ReadsChunks(Chunks(data), tail);
    ChunksTogether(data);
    CountTailReads(n, rest);
    assert (Chars(data) + [0 as char])[..n] == Chars(data);
    InitializerSteps(l.p, " " + (l.p.construct + s1), s1, values, tail, "\n  " + (Dec(n) + (")" + rest)),
                     n, ")" + rest, rest, Chars(data));
  }

  lemma DataReads(l: Layout, ws: string, i: nat, data: bytes, rest: string)
    requires Readable(l) && AllSpace(ws) && data != []
    ensures ReadDecl(l.p, ws + (DataDecl(l, i, data) + rest))
            == Some((Decl(Id(l.stems.data, i), Chars(data)), "\n\n" + rest))
  {
    DataDeclReads(l, ws, i, data, rest);
    DataRest(l, Id(l.stems.data, i), data, rest);
  }

  lemma DataRest(l: Layout, id: string, data: bytes, rest: string)
    requires Readable(l) && data != []
    ensures ReadRest(l.p, id, DataInit(l, data, ";\n\n" + rest)) == Some((Decl(id, Chars(data)), "\n\n" + rest))
  {
    DataInitializer(l, data, ";\n\n" + rest);
    assert ";\n\n" + rest == ";" + ("\n\n" + rest);
    ExpectNow(";", "\n\n" + rest);
    RestSteps(l.p, id, DataInit(l, data, ";\n\n" + rest), Chars(data), ";\n\n" + rest, "\n\n" + rest);
  }

  /** Without any byte, the quote opens a literal that its line does not close. */
  lemma EmptyDataFails(l: Layout, ws: string, i: nat, rest: string)
    requires Readable(l) && AllSpace(ws)
    ensures ReadDecl(l.p, ws + (DataDecl(l, i, []) + rest)) == None
  {
    DataDeclReads(l, ws, i, [], rest);
    EmptyRest(l, ";\n\n" + rest);
  }

  lemma EmptyRest(l: Layout, rest: string)
    requires Readable(l)
    ensures ReadInitializer(l.p, DataInit(l, [], rest)) == None
  {
    var tail := CountTail(0, rest);
    var s := "\"" + tail;
    assert OpenLiterals(Chunks([])) + s == s;
    ExpectHere(" ", l.p.construct, s);
    UnclosedLiteral(tail);
  }

  lemma UnclosedLiteral(tail: string)
    requires |tail| >= 2 && tail[0] == ',' && tail[1] == '\n'
    ensures ReadLiterals("\"" + tail) == None
  {
    assert SkipSpace("\"" + tail) == "\"" + tail && ("\"" + tail)[1..] == tail;
    assert ReadCharacters(tail[1..]) == None;
  }

  // --- All declarations ---

  /** No declaration starts here. */
  predicate NoDecl(l: Layout, tail: string) {
    Solid(tail) && !(l.p.decl <= tail)
  }

  /** One more declaration in front of those read. */
  function Prepend(decl: Decl, r: Option<(seq<Decl>, string)>): Option<(seq<Decl>, string)> {
    match r
    case None => None
    case Some(more) => Some(([decl] + more.0, more.1))
  }

  lemma DeclsStep(p: Pieces, s: string, decl: Decl, s': string)
    requires ReadDecl(p, s) == Some((decl, s'))
    ensures ReadDecls(p, s) == Prepend(decl, ReadDecls(p, s'))
  {
  }

  lemma DeclsEnd(l: Layout, ws: string, tail: string)
    requires AllSpace(ws) && NoDecl(l, tail)
    ensures ReadDecls(l.p, ws + tail) == Some(([], tail))
  {
    SkipsSpace(ws, tail);
  }

  lemma DeclsHead(l: Layout, i: nat, files: seq<File>, tail: string)
    requires files != []
    ensures Decls(l, i, files) + tail
            == NameDecl(l, i, files[0].name) + (DataDecl(l, i, files[0].data) + (Decls(l, i + 1, files[1..]) + tail))
  {
  }

  /** The declarations of printable files are read back. */
  lemma {:induction false} DeclsRead(l: Layout, ws: string, i: nat, files: seq<File>, tail: string)
    requires Readable(l) && AllSpace(ws) && NoDecl(l, tail)
    requires forall k | 0 <= k < |files| :: Printable(files[k])
    ensures ReadDecls(l.p, ws + (Decls(l, i, files) + tail)) == Some((MeantDecls(l, i, files), tail))
    decreases files
  {
    if files == [] {
      assert Decls(l, i, files) + tail == tail;
      DeclsEnd(l, ws, tail);
    } else {
      var rest := Decls(l, i + 1, files[1..]) + tail;
      DeclsHead(l, i, files, tail);
      DeclsRead(l, "\n\n", i + 1, files[1..], tail);
      FileReads(l, ws, i, files[0], rest);
    }
  }

  /** The two declarations of a file, and whatever declarations follow them. */
  lemma FileReads(l: Layout, ws: string, i: nat, f: File, rest: string)
    requires Readable(l) && AllSpace(ws) && Printable(f)
    ensures ReadDecls(l.p, ws + (NameDecl(l, i, f.name) + (DataDecl(l, i, f.data) + rest)))
            == Prepend(Decl(Id(l.stems.name, i), f.name),
                       Prepend(Decl(Id(l.stems.data, i), Chars(f.data)), ReadDecls(l.p, "\n\n" + rest)))
  {
    NameThen(l, ws, i, f.name, DataDecl(l, i, f.data) + rest);
    DataThen(l, "\n", i, f.data, rest);
  }

  lemma NameThen(l: Layout, ws: string, i: nat, name: string, rest: string)
    requires Readable(l) && AllSpace(ws) && Plain(name)
    ensures ReadDecls(l.p, ws + (NameDecl(l, i, name) + rest))
            == Prepend(Decl(Id(l.stems.name, i), name), ReadDecls(l.p, "\n" + rest))
  {
    PlainNameReads(l, ws, i, name, rest);
    DeclsStep(l.p, ws + (NameDecl(l, i, name) + rest), Decl(Id(l.stems.name, i), name), "\n" + rest);
  }

  lemma DataThen(l: Layout, ws: string, i: nat, data: bytes, rest: string)
    requires Readable(l) && AllSpace(ws) && data != []
    ensures ReadDecls(l.p, ws + (DataDecl(l, i, data) + rest))
            == Prepend(Decl(Id(l.stems.data, i), Chars(data)), ReadDecls(l.p, "\n\n" + rest))
  {
    DataReads(l, ws, i, data, rest);
    DeclsStep(l.p, ws + (DataDecl(l, i, data) + rest), Decl(Id(l.stems.data, i), Chars(data)), "\n\n" + rest);
  }

  /** A declaration starts here, so reading goes on only if it can be read. */
  lemma DeclIsRead(l: Layout, ws: string, rest: string)
    requires Readable(l) && AllSpace(ws) && ReadDecls(l.p, ws + (l.p.decl + rest)).Some?
    ensures ReadDecl(l.p, ws + (l.p.decl + rest)).Some?
    ensures ReadDecls(l.p, ws + (l.p.decl + rest)).value.0 != []
    ensures ReadDecl(l.p, ws + (l.p.decl + rest)).value.0 == ReadDecls(l.p, ws + (l.p.decl + rest)).value.0[0]
  {
    ExpectHere(ws, l.p.decl, rest);
  }

  lemma NameDeclHead(l: Layout, i: nat, name: string, rest: string) returns (more: string)
    ensures NameDecl(l, i, name) + rest == l.p.decl + more
  {
    more := l.stems.name + Dec(i) + " = \"" + name + "\";\n" + rest;
  }

  lemma DataDeclHead(l: Layout, i: nat, data: bytes, rest: string) returns (more: string)
    ensures DataDecl(l, i, data) + rest == l.p.decl + more
  {
    DataDeclRegroup(l, i, data, rest);
    more := Id(l.stems.data, i) + (" =" + DataInit(l, data, ";\n\n" + rest));
  }

  /** Only printable files are read back. */
  lemma FileMustBePrintable(l: Layout, ws: string, i: nat, f: File, rest: string)
    requires Readable(l) && AllSpace(ws)
    requires var r := ReadDecls(l.p, ws + (NameDecl(l, i, f.name) + (DataDecl(l, i, f.data) + rest)));
             r.Some? && (r.value.0 != [] ==> r.value.0[0].value == f.name)
    ensures Printable(f)
  {
    var s := DataDecl(l, i, f.data) + rest;
    var more := NameDeclHead(l, i, f.name, s);
    DeclIsRead(l, ws, more);
    OnlyPlainNameReads(l, ws, i, f.name, s);
    NameThen(l, ws, i, f.name, s);
    var more' := DataDeclHead(l, i, f.data, rest);
    DeclIsRead(l, "\n", more');
    EmptyDataFails(l, "\n", i, rest);
  }

  lemma PrependedSame(first: Decl, second: Decl, r: Option<(seq<Decl>, string)>, decls: seq<Decl>)
    requires var both := Prepend(first, Prepend(second, r)); both.Some? && both.value.0 == [first] + ([second] + decls)
    ensures r.Some? && r.value.0 == decls
  {
    var read := r.value.0;
    assert ([first] + ([second] + read))[1..][1..] == read;
    assert ([first] + ([second] + decls))[1..][1..] == decls;
  }

  /** The declarations are read back, whatever is left after them. */
  predicate ReadsMeant(l: Layout, ws: string, i: nat, files: seq<File>, tail: string) {
    var r := ReadDecls(l.p, ws + (Decls(l, i, files) + tail));
    r.Some? && r.value.0 == MeantDecls(l, i, files)
  }

  lemma FirstMustBePrintable(l: Layout, ws: string, i: nat, files: seq<File>, tail: string)
    requires Readable(l) && AllSpace(ws) && files != [] && ReadsMeant(l, ws, i, files, tail)
    ensures Printable(files[0]) && ReadsMeant(l, "\n\n", i + 1, files[1..], tail)
  {
    var rest := Decls(l, i + 1, files[1..]) + tail;
    DeclsHead(l, i, files, tail);
    FileMustBePrintable(l, ws, i, files[0], rest);
    FileReads(l, ws, i, files[0], rest);
    PrependedSame(Decl(Id(l.stems.name, i), files[0].name), Decl(Id(l.stems.data, i), Chars(files[0].data)),
                  ReadDecls(l.p, "\n\n" + rest), MeantDecls(l, i + 1, files[1..]));
  }

  lemma {:induction false} OnlyPrintableRead(l: Layout, ws: string, i: nat, files: seq<File>, tail: string)
    requires Readable(l) && AllSpace(ws) && ReadsMeant(l, ws, i, files, tail)
    ensures forall k | 0 <= k < |files| :: Printable(files[k])
    decreases files
  {
    if files != [] {
      FirstMustBePrintable(l, ws, i, files, tail);
      OnlyPrintableRead(l, "\n\n", i + 1, files[1..], tail);
      assert forall k | 0 < k < |files| :: files[k] == files[1..][k - 1];
    }
  }

  // --- The table ---

  lemma EntrySteps(p: Pieces, s: string, s1: string, s2: string, name: string, s3: string,
                   s4: string, s5: string, data: string, s6: string, s7: string)
    requires Expect("{", s) == Some(s1) && Expect(p.nulls, s1) == None && Expect("&", s1) == Some(s2)
    requires ReadIdentifier(s2) == Some((name, s3)) && Expect(",", s3) == Some(s4) && Expect("&", s4) == Some(s5)
    requires ReadIdentifier(s5) == Some((data, s6)) && Expect("}", s6) == Some(s7)
    ensures ReadRow(p, s) == Some((Entry(name, data), s7))
  {
  }

  lemma RowRegroup(a: string, b: string, rest: string)
    ensures "  {&" + a + ", &" + b + "},\n" + rest
            == "  " + ("{" + ("&" + (a + ("," + (" " + ("&" + (b + ("}" + (",\n" + rest)))))))))
  {
    var tail := "},\n" + rest;
    assert tail == "}" + (",\n" + rest);
    assert ", &" + b + tail == "," + (" " + ("&" + (b + tail)));
    assert "  {&" + a + (", &" + b + tail) == "  " + ("{" + ("&" + (a + (", &" + b + tail))));
  }

  lemma RowReads(l: Layout, ws: string, i: nat, rest: string)
    requires Readable(l) && AllSpace(ws)
    ensures ReadRow(l.p, ws + (RowText(l, i) + rest))
            == Some((Entry(Id(l.stems.name, i), Id(l.stems.data, i)), ",\n" + rest))
  {
    var a, b := Id(l.stems.name, i), Id(l.stems.data, i);
    IdIsIdentifier(l.stems.name, i);
    IdIsIdentifier(l.stems.data, i);
    var s7 := ",\n" + rest;
    var s5 := b + ("}" + s7);
    var s2 := a + ("," + (" " + ("&" + s5)));
    assert RowText(l, i) + rest == "  {&" + a + ", &" + b + "},\n" + rest;
    RowRegroup(a, b, rest);
    var s := ws + (RowText(l, i) + rest);
    assert s == (ws + "  ") + ("{" + ("&" + s2));
    ExpectHere(ws + "  ", "{", "&" + s2);
    NotNulls(l, s2);
    ExpectNow("&", s2);
    ReadsIdentifierNow(a, "," + (" " + ("&" + s5)));
    ExpectNow(",", " " + ("&" + s5));
    ExpectHere(" ", "&", s5);
    ReadsIdentifierNow(b, "}" + s7);
    ExpectNow("}", s7);
    EntrySteps(l.p, s, "&" + s2, s2, a, "," + (" " + ("&" + s5)), " " + ("&" + s5), s5, b, "}" + s7, s7);
  }

  lemma NotNulls(l: Layout, rest: string)
    requires Readable(l)
    ensures Expect(l.p.nulls, "&" + rest) == None
  {
    assert "" + ("&" + rest) == "&" + rest;
    ExpectOther("", l.p.nulls, "&" + rest);
  }

  /** The sentinel row and what closes the table. */
  function TableEnd(l: Layout, rest: string): string {
    "  " + ("{" + (l.p.nulls + ("}" + rest)))
  }

  lemma SentinelReads(l: Layout, ws: string, rest: string)
    requires Readable(l) && AllSpace(ws) && Expect(",", rest) == None
    ensures ReadRows(l.p, ws + TableEnd(l, rest)) == Some(([Null], rest))
  {
    var s := l.p.nulls + ("}" + rest);
    assert ws + TableEnd(l, rest) == (ws + "  ") + ("{" + s);
    ExpectHere(ws + "  ", "{", s);
    ExpectNow(l.p.nulls, "}" + rest);
    ExpectNow("}", rest);
  }

  lemma RowsStep(p: Pieces, s: string, row: Row, s': string, next: string)
    requires ReadRow(p, s) == Some((row, s')) && Expect(",", s') == Some(next)
    ensures ReadRows(p, s) == match ReadRows(p, next)
                              case None => None
                              case Some(more) => Some(([row] + more.0, more.1))
  {
  }

  lemma RowsHead(l: Layout, i: nat, n: nat, end: string)
    requires n > 0
    ensures Rows(l, i, n) + end == RowText(l, i) + (Rows(l, i + 1, n - 1) + end)
  {
  }

  /** A row followed by a comma and the end of the line, and whatever rows follow it. */
  lemma RowThen(p: Pieces, s: string, row: Row, more: string)
    requires ReadRow(p, s) == Some((row, ",\n" + more))
    ensures ReadRows(p, s) == match ReadRows(p, "\n" + more)
                              case None => None
                              case Some(r) => Some(([row] + r.0, r.1))
  {
    CommaNext(more);
    RowsStep(p, s, row, ",\n" + more, "\n" + more);
  }

  lemma CommaNext(more: string)
    ensures Expect(",", ",\n" + more) == Some("\n" + more)
  {
    assert ",\n" + more == "," + ("\n" + more);
    ExpectNow(",", "\n" + more);
  }

  predicate ReadsRows(l: Layout, ws: string, i: nat, n: nat, rest: string) {
    ReadRows(l.p, ws + (Rows(l, i, n) + TableEnd(l, rest))) == Some((MeantRows(l, i, n), rest))
  }

  /** The rows of the table are read back, and the sentinel is the last. */
  lemma {:induction false} RowsRead(l: Layout, ws: string, i: nat, n: nat, rest: string)
    requires Readable(l) && AllSpace(ws) && Expect(",", rest) == None
    ensures ReadsRows(l, ws, i, n, rest)
    decreases n
  {
    if n == 0 {
      NoRows(l, ws, i, rest);
    } else {
      RowsRead(l, "\n", i + 1, n - 1, rest);
      MoreRows(l, ws, i, n, rest);
    }
  }

  lemma NoRows(l: Layout, ws: string, i: nat, rest: string)
    requires Readable(l) && AllSpace(ws) && Expect(",", rest) == None
    ensures ReadsRows(l, ws, i, 0, rest)
  {
    var end := TableEnd(l, rest);
    assert Rows(l, i, 0) == "" && "" + end == end;
    SentinelReads(l, ws, rest);
  }

  lemma MoreRows(l: Layout, ws: string, i: nat, n: nat, rest: string)
    requires Readable(l) && AllSpace(ws) && n > 0
    requires ReadsRows(l, "\n", i + 1, n - 1, rest)
    ensures ReadsRows(l, ws, i, n, rest)
  {
    var more := Rows(l, i + 1, n - 1) + TableEnd(l, rest);
    RowsHead(l, i, n, TableEnd(l, rest));
    RowReads(l, ws, i, more);
    RowThen(l.p, ws + (RowText(l, i) + more), Entry(Id(l.stems.name, i), Id(l.stems.data, i)), more);
  }

  // --- The whole header ---

  function AfterTable(l: Layout): string {
    "\n" + ("};" + ("\n\n" + (l.p.after + "")))
  }

  lemma TableRegroup(l: Layout, n: nat)
    ensures TableText(l, n) == l.p.table + (Rows(l, 1, n) + TableEnd(l, AfterTable(l)))
  {
    var rows := Rows(l, 1, n);
    assert l.p.after + "" == l.p.after;
    assert "}\n" + "};\n\n" + l.p.after == "}" + AfterTable(l);
    assert "  {" + l.p.nulls + ("}" + AfterTable(l)) == TableEnd(l, AfterTable(l));
    assert TableText(l, n) == l.p.table + (rows + ("  {" + l.p.nulls + ("}\n" + "};\n\n" + l.p.after)));
  }

  lemma TableStartsNoDecl(l: Layout, n: nat)
    requires Readable(l)
    ensures NoDecl(l, TableText(l, n))
  {
    TableRegroup(l, n);
    var k :| 0 <= k < |l.p.decl| && k < |l.p.table| && l.p.decl[k] != l.p.table[k];
    assert TableText(l, n)[k] == l.p.table[k];
  }

  lemma TableReads(l: Layout, n: nat)
    requires Readable(l)
    ensures ReadTable(l.p, TableText(l, n)) == Some(MeantRows(l, 1, n))
  {
    var rest := AfterTable(l);
    var rows := Rows(l, 1, n) + TableEnd(l, rest);
    TableRegroup(l, n);
    ExpectNow(l.p.table, rows);
    assert "" + rows == rows;
    ExpectOther("\n", ",", "};" + ("\n\n" + (l.p.after + "")));
    RowsRead(l, "", 1, n, rest);
    ExpectHere("\n", "};", "\n\n" + (l.p.after + ""));
    ExpectHere("\n\n", l.p.after, "");
  }

  lemma HeaderSteps(p: Pieces, s: string)
    requires Solid(p.before)
    ensures ReadHeader(p, p.before + s) ==
            match ReadDecls(p, s)
            case None => None
            case Some(r) => match ReadTable(p, r.1) case None => None case Some(rows) => Some((r.0, rows))
  {
    ExpectNow(p.before, s);
  }

  lemma HeaderRegroup(l: Layout, files: seq<File>)
    ensures HeaderText(l, files) == l.p.before + ("" + (Decls(l, 1, files) + TableText(l, |files|)))
  {
    var s := Decls(l, 1, files) + TableText(l, |files|);
    assert "" + s == s;
  }

  /** The header reads back as what was meant exactly when every name is plain and no file is empty. */
  lemma HeaderIff(l: Layout, files: seq<File>)
    requires Readable(l)
    ensures ReadHeader(l.p, HeaderText(l, files)) == Some(Meant(l, files))
            <==> forall k | 0 <= k < |files| :: Printable(files[k])
  {
    HeaderRegroup(l, files);
    HeaderSteps(l.p, "" + (Decls(l, 1, files) + TableText(l, |files|)));
    TableStartsNoDecl(l, |files|);
    TableReads(l, |files|);
    if forall k | 0 <= k < |files| :: Printable(files[k]) {
      DeclsRead(l, "", 1, files, TableText(l, |files|));
    } else if ReadHeader(l.p, HeaderText(l, files)) == Some(Meant(l, files)) {
      OnlyPrintableRead(l, "", 1, files, TableText(l, |files|));
    }
  }
}
