/**
 The header at work: its constants, its table of pointers to them, and the
 search of `find_embedded_file`.
 */
module Lookup {
  import opened Bytes
  import opened CxxReader
  import opened CxxProgram
  import opened Header
  import opened Reading
  import opened RoundTrip
  import opened Search
  import opened Printed

  // --- The table as the program sees it ---

  /** The constants of a program; a name must not be declared twice. */
  function Bind(decls: seq<Decl>): Option<map<string, string>> {
    if decls == [] then Some(map[])
    else
      var env :- Bind(decls[1..]);
      if decls[0].name in env then None else Some(env[decls[0].name := decls[0].value])
  }

  /** What the pointers of a row lead to, under the names of the struct's members, in the order in which
      the struct declares them; `None` for a null pointer. A row may refer only to declared constants. */
  function Follow(env: map<string, string>, members: seq<string>, row: Row): Option<Fields> {
    if |members| != 2 || members[0] == members[1] then None
    else
      match row
      case Null => Some(map[members[0] := None, members[1] := None])
      case Entry(first, second) =>
        if first in env && second in env then Some(map[members[0] := Some(env[first]), members[1] := Some(env[second])])
        else None
  }

  function Resolve(env: map<string, string>, members: seq<string>, rows: seq<Row>): (r: Option<seq<Fields>>)
    ensures r.Some? ==> |r.value| == |rows|
  {
    if rows == [] then Some([])
    else
      var more :- Resolve(env, members, rows[1..]);
      var fields :- Follow(env, members, rows[0]);
      Some([fields] + more)
  }

  /** Compiling a header: read what its fixed text declares, read its constants and rows, bind the
      constants, follow the pointers. */
  function Load(p: Pieces, text: string): Option<Linked> {
    var unit :- ReadUnit(p);
    var (decls, rows) :- ReadHeader(p, text);
    var env :- Bind(decls);
    var fields :- Resolve(env, unit.table.members, rows);
    Some(Linked(unit.table.struct_, unit.table.array_, fields, unit.search))
  }

  /** Compiling a header and calling its function. */
  function Ask(p: Pieces, text: string, name: string, before: string): Option<(bool, string)> {
    var unit :- Load(p, text);
    Call(unit, "find_embedded_file", name, before)
  }

  /** The row of a file: its name and its data, under these names. */
  function RowOf(f: File): Fields {
    map["name" := Some(f.name), "data" := Some(Chars(f.data))]
  }

  const SENTINEL: Fields := map["name" := None, "data" := None]

  /** The table that the files call for. */
  function TableOf(files: seq<File>): (table: seq<Fields>)
    ensures |table| == |files| + 1
    ensures forall k | 0 <= k < |files| :: table[k] == RowOf(files[k])
    ensures table[|files|] == SENTINEL
  {
    seq(|files|, k requires 0 <= k < |files| => RowOf(files[k])) + [SENTINEL]
  }

  /** The compiled header that the files call for. */
  function Compiled(files: seq<File>): Linked {
    Linked("embedded_file", "embedded_files", TableOf(files), SEARCH)
  }

  /** The fixed text declares the table and the search that the files need. */
  predicate Declares(p: Pieces) {
    ReadUnit(p) == Some(Unit(TABLE, SEARCH))
  }

  // --- Symbols ---

  /** Numbered names are distinct for distinct numbers. */
  lemma IdInjective(stem: string, i: nat, j: nat)
    requires Id(stem, i) == Id(stem, j)
    ensures i == j
  {
    DecDigits(i);
    DecDigits(j);
    assert Id(stem, i)[|stem|..] == Dec(i) && Id(stem, j)[|stem|..] == Dec(j);
  }

  /** ... and for distinct stems of the same length. */
  lemma IdStems(a: string, b: string, i: nat, j: nat)
    requires |a| == |b| && a != b
    ensures Id(a, i) != Id(b, j)
  {
    assert Id(a, i)[..|a|] == a && Id(b, j)[..|b|] == b;
  }

  /** All names of an environment are numbered from `i` on. */
  ghost predicate NumberedFrom(l: Layout, i: nat, env: map<string, string>) {
    forall x | x in env :: exists j :: j >= i && (x == Id(l.stems.name, j) || x == Id(l.stems.data, j))
  }

  lemma FreshNames(l: Layout, i: nat, env: map<string, string>)
    requires Readable(l) && NumberedFrom(l, i + 1, env)
    ensures Id(l.stems.name, i) !in env && Id(l.stems.data, i) !in env
    ensures Id(l.stems.name, i) != Id(l.stems.data, i)
  {
    forall j: nat | j >= i + 1
      ensures Id(l.stems.name, i) != Id(l.stems.name, j) && Id(l.stems.data, i) != Id(l.stems.data, j)
      ensures Id(l.stems.name, i) != Id(l.stems.data, j) && Id(l.stems.data, i) != Id(l.stems.name, j)
    {
      if Id(l.stems.name, i) == Id(l.stems.name, j) { IdInjective(l.stems.name, i, j); }
      if Id(l.stems.data, i) == Id(l.stems.data, j) { IdInjective(l.stems.data, i, j); }
      IdStems(l.stems.name, l.stems.data, i, j);
      IdStems(l.stems.data, l.stems.name, i, j);
    }
    IdStems(l.stems.name, l.stems.data, i, i);
  }

  predicate HoldsFile(l: Layout, i: nat, f: File, env: map<string, string>) {
    && Id(l.stems.name, i) in env && env[Id(l.stems.name, i)] == f.name
    && Id(l.stems.data, i) in env && env[Id(l.stems.data, i)] == Chars(f.data)
  }

  /** The environment holds the name and the data of every file under its number. */
  predicate Holds(l: Layout, i: nat, files: seq<File>, env: map<string, string>)
    decreases files
  {
    files != [] ==> HoldsFile(l, i, files[0], env) && Holds(l, i + 1, files[1..], env)
  }

  lemma {:induction false} StillHolds(l: Layout, i: nat, files: seq<File>, env: map<string, string>,
                                      more: map<string, string>)
    requires Holds(l, i, files, env) && forall x | x in env :: x in more && more[x] == env[x]
    ensures Holds(l, i, files, more)
    decreases files
  {
    if files != [] { StillHolds(l, i + 1, files[1..], env, more); }
  }

  /** No constant is declared twice, and each gets the value that was printed for it. */
  lemma {:induction false} BindsMeant(l: Layout, i: nat, files: seq<File>) returns (env: map<string, string>)
    requires Readable(l)
    ensures Bind(MeantDecls(l, i, files)) == Some(env)
    ensures NumberedFrom(l, i, env) && Holds(l, i, files, env)
    decreases files
  {
    if files == [] {
      env := map[];
    } else {
      var rest := BindsMeant(l, i + 1, files[1..]);
      FreshNames(l, i, rest);
      env := rest[Id(l.stems.data, i) := Chars(files[0].data)][Id(l.stems.name, i) := files[0].name];
      BindsFile(l, i, files, rest);
      StillHolds(l, i + 1, files[1..], rest, env);
    }
  }

  lemma BindsFile(l: Layout, i: nat, files: seq<File>, rest: map<string, string>)
    requires files != [] && Bind(MeantDecls(l, i + 1, files[1..])) == Some(rest)
    requires Id(l.stems.name, i) !in rest && Id(l.stems.data, i) !in rest && Id(l.stems.name, i) != Id(l.stems.data, i)
    ensures Bind(MeantDecls(l, i, files))
            == Some(rest[Id(l.stems.data, i) := Chars(files[0].data)][Id(l.stems.name, i) := files[0].name])
  {
    var decls, later := MeantDecls(l, i, files), MeantDecls(l, i + 1, files[1..]);
    var second := Decl(Id(l.stems.data, i), Chars(files[0].data));
    assert decls[1..] == [second] + later;
    assert ([second] + later)[1..] == later;
    assert Bind([second] + later) == Some(rest[second.name := second.value]);
  }

  /** Every row leads to the name and the data printed for its file, each under its own member. */
  lemma {:induction false} ResolvesMeant(l: Layout, i: nat, files: seq<File>, env: map<string, string>)
    requires Holds(l, i, files, env)
    ensures Resolve(env, TABLE.members, MeantRows(l, i, |files|)) == Some(TableOf(files))
    decreases files
  {
    var rows := MeantRows(l, i, |files|);
    if files == [] {
      var none: seq<Fields> := [];
      assert rows == [Null] && Resolve(env, TABLE.members, rows[1..]) == Some(none);
      assert TableOf(files) == [SENTINEL] + none;
    } else {
      ResolvesMeant(l, i + 1, files[1..], env);
      assert rows[1..] == MeantRows(l, i + 1, |files[1..]|);
      assert Follow(env, TABLE.members, rows[0]) == Some(RowOf(files[0]));
      assert TableOf(files) == [RowOf(files[0])] + TableOf(files[1..]);
    }
  }

  /** The compiled header of printable files has the table that the files call for, with their names and
      data in the members of these names. */
  lemma LoadsTable(l: Layout, files: seq<File>)
    requires Readable(l) && Declares(l.p) && forall k | 0 <= k < |files| :: Printable(files[k])
    ensures Load(l.p, HeaderText(l, files)) == Some(Compiled(files))
  {
    HeaderIff(l, files);
    var env := BindsMeant(l, 1, files);
    ResolvesMeant(l, 1, files, env);
  }

  // --- The search ---

  /** The string holds exactly these bytes, and could not come from any others. */
  ghost predicate Spells(data: string, content: bytes) {
    forall other: bytes :: Chars(other) == data <==> other == content
  }

  lemma CharsSpell(content: bytes)
    ensures Spells(Chars(content), content)
  {
    forall other: bytes | Chars(other) == Chars(content) ensures other == content {
      assert |other| == |content|;
      assert forall k | 0 <= k < |other| :: Chars(other)[k] == Chars(content)[k];
    }
  }

  predicate FirstNamed(files: seq<File>, name: string, k: nat) {
    k < |files| && files[k].name == name && forall j | 0 <= j < k :: files[j].name != name
  }

  /** The contents of the first file of that name, or nothing new if there is none. */
  ghost predicate Finds(files: seq<File>, name: string, before: string, found: bool, data: string) {
    && (found <==> exists k | 0 <= k < |files| :: files[k].name == name)
    && (found ==> exists k | 0 <= k < |files| :: FirstNamed(files, name, k) && Spells(data, files[k].data))
    && (!found ==> data == before)
  }

  lemma TableIsTerminated(files: seq<File>)
    ensures Terminated(TableOf(files))
  {
  }

  /** The rows of a name are the files of that name. */
  lemma NamedRows(files: seq<File>, name: string, k: nat)
    requires k < |TableOf(files)|
    ensures Named(TableOf(files)[k], name) <==> k < |files| && files[k].name == name
  {
  }

  /** An answer about the table is an answer about the files. */
  lemma AnswerFinds(files: seq<File>, name: string, before: string, found: bool, data: string)
    requires Answers(TableOf(files), name, before, found, data)
    ensures Finds(files, name, before, found, data)
  {
    var rows := TableOf(files);
    forall k | 0 <= k < |rows| ensures Named(rows[k], name) <==> k < |files| && files[k].name == name {
      NamedRows(files, name, k);
    }
    if found {
      var k :| 0 <= k < |rows| && IsFirst(rows, name, 0, k) && "data" in rows[k] && rows[k]["data"] == Some(data);
      assert FirstNamed(files, name, k) by {
        forall j | 0 <= j < k ensures files[j].name != name {
          assert !Named(rows[j], name);
        }
      }
      CharsSpell(files[k].data);
    } else {
      forall k | 0 <= k < |files| ensures files[k].name != name {
        assert !Named(rows[k], name);
      }
    }
  }

  /** The compiled header answers any question with the contents of the first file of the name. */
  lemma AskFinds(l: Layout, files: seq<File>, name: string, before: string)
    requires Readable(l) && Declares(l.p) && forall k | 0 <= k < |files| :: Printable(files[k])
    ensures var r := Ask(l.p, HeaderText(l, files), name, before);
            r.Some? && Finds(files, name, before, r.value.0, r.value.1)
  {
    LoadsTable(l, files);
    TableIsTerminated(files);
    CallAnswers(Compiled(files), name, before);
    var r := Call(Compiled(files), "find_embedded_file", name, before);
    AnswerFinds(files, name, before, r.value.0, r.value.1);
  }

  /** Compiling the header of some files and searching it. */
  method LookUp(l: Layout, ghost files: seq<File>, text: string, name: string, before: string)
    returns (found: bool, data: string)
    requires Readable(l) && Declares(l.p) && forall k | 0 <= k < |files| :: Printable(files[k])
    requires text == HeaderText(l, files)
    ensures Ask(l.p, text, name, before) == Some((found, data))
    ensures Finds(files, name, before, found, data)
  {
    LoadsTable(l, files);
    TableIsTerminated(files);
    var loaded := Load(l.p, text);
    found, data := FindEmbeddedFile(loaded.value, name, before);
    AnswerFinds(files, name, before, found, data);
  }

  // --- The generator's own layout ---

  lemma PiecesAreSolid()
    ensures Solid(PIECES.before) && Solid(PIECES.decl) && Solid(PIECES.construct)
    ensures Solid(PIECES.nulls) && Solid(PIECES.after)
    ensures PIECES.construct[0] != '"' && PIECES.nulls[0] != '&'
  {
    assert PIECES.before[0] == '#' && PIECES.decl[0] == 's' && PIECES.construct[0] == 's';
    assert PIECES.nulls[0] == 'N' && PIECES.after[0] == 's';
  }

  lemma TableIsNoDecl()
    ensures Solid(PIECES.table) && |PIECES.decl| > 15 && |PIECES.table| > 15 && PIECES.decl[15] != PIECES.table[15]
  {
    var first := "static const struct ";
    assert PIECES.table[0] == first[0] == 's' && PIECES.table[15] == first[15] == 'r';
  }

  lemma StemsAreIdentifiers()
    ensures IsIdentifier(STEMS.name) && IsIdentifier(STEMS.data)
    ensures |STEMS.name| == |STEMS.data| && STEMS.name != STEMS.data
  {
    assert STEMS.name[17] == 'n' && STEMS.data[17] == 'd';
  }

  lemma LayoutIsReadable()
    ensures Readable(LAYOUT)
  {
    PiecesAreSolid();
    TableIsNoDecl();
    StemsAreIdentifiers();
    var l := LAYOUT;
    assert l.p.decl[15] != l.p.table[15];
  }

  /** What the generator prints reads back as what it means, for exactly the files it can print. */
  lemma GeneratedHeaderIff(files: seq<File>)
    ensures ReadHeader(PIECES, HeaderText(LAYOUT, files)) == Some(Meant(LAYOUT, files))
            <==> forall k | 0 <= k < |files| :: Plain(files[k].name) && files[k].data != []
  {
    LayoutIsReadable();
    HeaderIff(LAYOUT, files);
    assert forall k | 0 <= k < |files| :: Printable(files[k]) == (Plain(files[k].name) && files[k].data != []);
  }

  /** The generator's header has an answer to any question: the contents of the first file of the name. */
  lemma GeneratedFinds(files: seq<File>, name: string, before: string)
    requires forall k | 0 <= k < |files| :: Plain(files[k].name) && files[k].data != []
    ensures var r := Ask(PIECES, HeaderText(LAYOUT, files), name, before);
            r.Some? && Finds(files, name, before, r.value.0, r.value.1)
  {
    LayoutIsReadable();
    PrintedUnit();
    AskFinds(LAYOUT, files, name, before);
  }

  /** From the disk to the answer: generate the header for the files named by the arguments, compile it,
      search it. The contents of the file are found again under its name. */
  method GenerateAndFind(l: Layout, argv: seq<string>, disk: map<string, bytes>, name: string, before: string)
    returns (built: bool, found: bool, data: string)
    requires Readable(l) && Declares(l.p)
    requires |argv| < INT_MAX && forall file | file in disk :: |disk[file]| <= INT_MAX
    requires forall k | 0 <= k < |argv| && argv[k] in disk :: Plain(argv[k]) && disk[argv[k]] != []
    ensures built <==> forall k | 0 <= k < |argv| :: argv[k] in disk
    ensures found <==> built && name in argv
    ensures found ==> name in disk && Spells(data, disk[name])
    ensures !found ==> data == before
  {
    var output := new Output();
    built := output.Generate(l, argv, disk);
    if !built {
      return false, false, before;
    }
    ghost var files := FilesOf(argv, disk);
    assert forall k | 0 <= k < |files| :: Printable(files[k]);
    found, data := LookUp(l, files, output.text, name, before);
    FindsOnDisk(argv, disk, name, before, found, data);
  }

  lemma FindsOnDisk(argv: seq<string>, disk: map<string, bytes>, name: string, before: string, found: bool,
                    data: string)
    requires forall k | 0 <= k < |argv| :: argv[k] in disk
    requires Finds(FilesOf(argv, disk), name, before, found, data)
    ensures found <==> name in argv
    ensures found ==> name in disk && Spells(data, disk[name])
    ensures !found ==> data == before
  {
    var files := FilesOf(argv, disk);
    assert forall k | 0 <= k < |argv| :: files[k] == File(argv[k], disk[argv[k]]);
  }
}
