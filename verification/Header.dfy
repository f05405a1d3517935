/**
 The embedded-file generator: the header it writes for a list of files.
 */
module Header {
  import opened Bytes
  import opened CxxReader

  // --- printf ---

  /** `%d` of a number that is not negative. */
  function Dec(n: nat): (s: string)
    ensures s != ""
  {
    if n < 10 then [DecDigit(n)] else Dec(n / 10) + [DecDigit(n % 10)]
  }

  function DecDigit(d: nat): char
    requires d < 10
  {
    ('0' as int + d) as char
  }

  function HexDigit(d: nat): char
    requires d < 16
  {
    if d < 10 then ('0' as int + d) as char else ('a' as int + d - 10) as char
  }

  /** `\x%02x` */
  function HexByte(b: byte): string {
    ['\\', 'x', HexDigit(b / 16), HexDigit(b % 16)]
  }

  function HexBytes(data: bytes): string {
    if data == [] then "" else HexByte(data[0]) + HexBytes(data[1..])
  }

  // --- The pieces of the header ---

  datatype File = File(name: string, data: bytes)

  const CODE: string :=
    "static bool " + "find_embedded_file(const " + "std::string &name, " + "std::string &data) {\n"
    + "  const struct " + "embedded_file *p;\n"
    + "  for (p = " + "embedded_files; " + "p->name != NULL; " + "p++) {\n"
    + "    if (*p->name " + "== name) {\n"
    + "      data = *p->data;\n"
    + "      return true;\n"
    + "    }\n"
    + "  }\n"
    + "  return false;\n"
    + "}\n"

  /** The fixed text of the header; the functions below leave it open. */
  const PIECES: Pieces := Pieces(
    "#ifndef TRANSLATION_FILES_H\n" + "#define TRANSLATION_FILES_H\n\n" + "#include <string>\n\n",
    "static const std::string ",
    "std::string(",
    "static const struct " + "embedded_file {\n" + "  const " + "std::string *name;\n"
      + "  const " + "std::string *data;\n" + "} embedded_files[] " + "= {\n",
    "NULL, NULL",
    CODE + "\n#" + "endif /* " + "TRANSLATION_FILES_H */\n"
  )

  /** The names of the constants, up to the number. */
  datatype Stems = Stems(name: string, data: string)

  const STEMS: Stems := Stems("translation_file_name_", "translation_file_data_")

  /** The bytes of a file in pieces of 16. */
  function Chunks(data: bytes): (chunks: seq<bytes>) {
    if data == [] then [] else if |data| <= 16 then [data] else [data[..16]] + Chunks(data[16..])
  }

  /** A literal on a line of its own for each piece, the last one still open. */
  function OpenLiterals(chunks: seq<bytes>): string {
    if chunks == [] then ""
    else "\n  \"" + HexBytes(chunks[0]) + if |chunks| == 1 then "" else "\"" + OpenLiterals(chunks[1..])
  }

  /** What the byte loop prints, and the quote that follows it in every case. */
  function DataText(data: bytes): string {
    OpenLiterals(Chunks(data)) + "\""
  }

  /** A header's fixed text and names. */
  datatype Layout = Layout(p: Pieces, stems: Stems)

  const LAYOUT: Layout := Layout(PIECES, STEMS)

  function NameDecl(l: Layout, i: nat, name: string): string {
    l.p.decl + l.stems.name + Dec(i) + " = \"" + name + "\";\n"
  }

  function DataDecl(l: Layout, i: nat, data: bytes): string {
    l.p.decl + l.stems.data + Dec(i) + " = " + l.p.construct + DataText(data) + ",\n  " + Dec(|data|) + ");\n\n"
  }

  function FileText(l: Layout, i: nat, f: File): string {
    NameDecl(l, i, f.name) + DataDecl(l, i, f.data)
  }

  /** The declarations for files numbered from `i`. */
  function Decls(l: Layout, i: nat, files: seq<File>): string
    decreases files
  {
    if files == [] then ""
    else FileText(l, i, files[0]) + Decls(l, i + 1, files[1..])
  }

  function RowText(l: Layout, i: nat): string {
    "  {&" + l.stems.name + Dec(i) + ", &" + l.stems.data + Dec(i) + "},\n"
  }

  function Rows(l: Layout, i: nat, n: nat): string
    decreases n
  {
    if n == 0 then "" else RowText(l, i) + Rows(l, i + 1, n - 1)
  }

  /** The table, its sentinel, and the end of the header. */
  function TableText(l: Layout, n: nat): string {
    l.p.table + Rows(l, 1, n) + "  {" + l.p.nulls + "}\n" + "};\n\n" + l.p.after
  }

  /** The whole header. */
  function HeaderText(l: Layout, files: seq<File>): string {
    l.p.before + Decls(l, 1, files) + TableText(l, |files|)
  }

  // --- One more byte ---

  lemma Assoc(a: string, b: string, c: string)
    ensures a + (b + c) == (a + b) + c
  {
  }

  lemma {:induction false} HexBytesSnoc(data: bytes, b: byte)
    ensures HexBytes(data + [b]) == HexBytes(data) + HexByte(b)
  {
    if data == [] {
      assert data + [b] == [b];
      assert HexBytes([b][1..]) == "";
    } else {
      assert (data + [b])[1..] == data[1..] + [b];
      HexBytesSnoc(data[1..], b);
    }
  }

  /** What the loop prints for the byte that follows `n` others. */
  function Next(n: nat, b: byte): string {
    (if n % 16 != 0 then "" else (if n > 0 then "\"" else "") + "\n  \"") + HexByte(b)
  }

  /** Byte by byte, the loop prints the literals of the pieces. */
  lemma {:induction false} NextByte(data: bytes, b: byte)
    ensures OpenLiterals(Chunks(data + [b])) == OpenLiterals(Chunks(data)) + Next(|data|, b)
  {
    if |data| < 16 {
      HexBytesSnoc(data, b);
    } else if |data| == 16 {
      NextLine(data, b);
    } else {
      NextByte(data[16..], b);
      NextByteLater(data, b);
    }
  }

  lemma NextLine(data: bytes, b: byte)
    requires |data| == 16
    ensures OpenLiterals(Chunks(data + [b])) == OpenLiterals(Chunks(data)) + Next(16, b)
  {
    var more := data + [b];
    assert more[..16] == data && more[16..] == [b];
    HexBytesSnoc([], b);
    assert [] + [b] == [b];
    assert Chunks(more) == [data] + [[b]];
  }

  lemma NextByteLater(data: bytes, b: byte)
    requires |data| > 16
    requires OpenLiterals(Chunks(data[16..] + [b])) == OpenLiterals(Chunks(data[16..])) + Next(|data| - 16, b)
    ensures OpenLiterals(Chunks(data + [b])) == OpenLiterals(Chunks(data)) + Next(|data|, b)
  {
    ChunksSnoc(data, b);
    OpenGrows(data[..16], Chunks(data[16..]), Chunks(data[16..] + [b]), Next(|data| - 16, b));
    assert Next(|data| - 16, b) == Next(|data|, b);
  }

  lemma ChunksSnoc(data: bytes, b: byte)
    requires |data| > 16
    ensures Chunks(data) == [data[..16]] + Chunks(data[16..])
    ensures Chunks(data + [b]) == [data[..16]] + Chunks(data[16..] + [b])
  {
    var more := data + [b];
    assert more[..16] == data[..16] && more[16..] == data[16..] + [b];
  }

  lemma OpenGrows(chunk: bytes, chunks: seq<bytes>, chunks': seq<bytes>, more: string)
    requires chunks != [] && chunks' != [] && OpenLiterals(chunks') == OpenLiterals(chunks) + more
    ensures OpenLiterals([chunk] + chunks') == OpenLiterals([chunk] + chunks) + more
  {
    OpenCons(chunk, chunks);
    OpenCons(chunk, chunks');
    Assoc("\n  \"" + HexBytes(chunk) + "\"", OpenLiterals(chunks), more);
  }

  lemma PrintedNext(start: string, data: bytes, j: nat)
    requires j < |data|
    ensures start + OpenLiterals(Chunks(data[..j])) + Next(j, data[j]) == start + OpenLiterals(Chunks(data[..j + 1]))
  {
    assert data[..j + 1] == data[..j] + [data[j]];
    NextByte(data[..j], data[j]);
  }

  lemma OpenCons(chunk: bytes, chunks: seq<bytes>)
    requires chunks != []
    ensures OpenLiterals([chunk] + chunks) == "\n  \"" + HexBytes(chunk) + "\"" + OpenLiterals(chunks)
  {
    assert ([chunk] + chunks)[1..] == chunks;
  }

  lemma {:induction false} DeclsSnoc(l: Layout, i: nat, files: seq<File>, f: File)
    ensures Decls(l, i, files + [f]) == Decls(l, i, files) + FileText(l, i + |files|, f)
    decreases files
  {
    if files == [] {
      assert files + [f] == [f];
      assert Decls(l, i + 1, [f][1..]) == "";
    } else {
      DeclsSnoc(l, i + 1, files[1..], f);
      Assoc(FileText(l, i, files[0]), Decls(l, i + 1, files[1..]), FileText(l, i + |files|, f));
      assert (files + [f])[1..] == files[1..] + [f];
    }
  }

  lemma {:induction false} RowsSnoc(l: Layout, i: nat, n: nat)
    ensures Rows(l, i, n + 1) == Rows(l, i, n) + RowText(l, i + n)
    decreases n
  {
    if n == 0 {
      assert Rows(l, i + 1, 0) == "";
    } else {
      RowsSnoc(l, i + 1, n - 1);
      assert Rows(l, i, n) == RowText(l, i) + Rows(l, i + 1, n - 1);
      assert Rows(l, i, n + 1) == RowText(l, i) + Rows(l, i + 1, n);
      Assoc(RowText(l, i), Rows(l, i + 1, n - 1), RowText(l, i + n));
    }
  }

  // --- The program that prints it ---

  const INT_MAX: nat := 0x7fff_ffff

  /** What is in the output file. */
  class Output {
    var text: string

    constructor ()
      ensures text == ""
    {
      text := "";
    }

    method Print(s: string)
      modifies this
      ensures text == old(text) + s
    {
      text := text + s;
    }

    /** The body of the loop: every 16 bytes a new literal, on a new line. */
    method PrintByte(j: nat, b: byte)
      modifies this
      ensures text == old(text) + Next(j, b)
    {
      if j % 16 == 0 {
        if j > 0 {
          Print("\"");
        }
        Print("\n  \"");
      }
      Print(HexByte(b));
    }

    /** The loop over the bytes of a file, and the quote that follows it. */
    method PrintData(data: bytes) returns (j: nat)
      modifies this
      ensures j == |data|
      ensures text == old(text) + DataText(data)
    {
      j := 0;
      while j < |data|
        invariant j <= |data|
        invariant text == old(text) + OpenLiterals(Chunks(data[..j]))
      {
        PrintByte(j, data[j]);
        PrintedNext(old(text), data, j);
        j := j + 1;
      }
      assert data[..j] == data;
      Print("\"");
    }

    method PrintFile(l: Layout, i: nat, f: File)
      requires i <= INT_MAX && |f.data| <= INT_MAX
      modifies this
      ensures text == old(text) + FileText(l, i, f)
    {
      Print(l.p.decl + l.stems.name + Dec(i) + " = \"" + f.name + "\";\n");
      Print(l.p.decl + l.stems.data + Dec(i) + " = " + l.p.construct);
      var j := PrintData(f.data);
      Print(",\n  " + Dec(j) + ");\n\n");
    }

    /** `main`: the arguments name the files; a file that cannot be opened ends the program. */
    method Generate(l: Layout, argv: seq<string>, disk: map<string, bytes>) returns (success: bool)
      requires |argv| < INT_MAX
      requires forall name | name in disk :: |disk[name]| <= INT_MAX
      requires text == ""
      modifies this
      ensures success <==> forall k | 0 <= k < |argv| :: argv[k] in disk
      ensures success ==> text == HeaderText(l, FilesOf(argv, disk))
      ensures !success ==> exists m | 0 <= m < |argv| :: BreaksOff(l, argv, disk, m, text)
    {
      Print(l.p.before);
      for i := 0 to |argv|
        invariant forall k | 0 <= k < i :: argv[k] in disk
        invariant text == l.p.before + Decls(l, 1, FilesOf(argv[..i], disk))
      {
        if argv[i] !in disk {
          assert BreaksOff(l, argv, disk, i, text);
          return false;
        }
        var f := File(argv[i], disk[argv[i]]);
        PrintFile(l, i + 1, f);
        NextFile(l, argv, disk, i, f);
      }
      assert argv[..|argv|] == argv;
      PrintTable(l, |argv|);
      return true;
    }

    /** The table, with its sentinel, and the lookup function. */
    method PrintTable(l: Layout, n: nat)
      requires n < INT_MAX
      modifies this
      ensures text == old(text) + TableText(l, n)
    {
      Print(l.p.table);
      for i := 0 to n
        invariant text == old(text) + (l.p.table + Rows(l, 1, i))
      {
        Print(RowText(l, i + 1));
        RowsSnoc(l, 1, i);
      }
      Print("  {" + l.p.nulls + "}\n");
      Print("};\n\n");
      Print(l.p.after);
    }
  }

  /** The files named by the arguments. */
  function FilesOf(argv: seq<string>, disk: map<string, bytes>): seq<File>
    requires forall k | 0 <= k < |argv| :: argv[k] in disk
  {
    seq(|argv|, k requires 0 <= k < |argv| => File(argv[k], disk[argv[k]]))
  }

  lemma NextFile(l: Layout, argv: seq<string>, disk: map<string, bytes>, i: nat, f: File)
    requires i < |argv| && (forall k | 0 <= k <= i :: argv[k] in disk) && f == File(argv[i], disk[argv[i]])
    ensures l.p.before + Decls(l, 1, FilesOf(argv[..i + 1], disk))
            == l.p.before + Decls(l, 1, FilesOf(argv[..i], disk)) + FileText(l, i + 1, f)
  {
    FilesNext(argv, disk, i, f);
    DeclsSnoc(l, 1, FilesOf(argv[..i], disk), f);
    Assoc(l.p.before, Decls(l, 1, FilesOf(argv[..i], disk)), FileText(l, i + 1, f));
  }

  lemma FilesNext(argv: seq<string>, disk: map<string, bytes>, i: nat, f: File)
    requires i < |argv| && (forall k | 0 <= k <= i :: argv[k] in disk) && f == File(argv[i], disk[argv[i]])
    ensures FilesOf(argv[..i + 1], disk) == FilesOf(argv[..i], disk) + [f]
  {
  }

  /** The first file that cannot be opened is number `m`; the text ends before its declarations. */
  predicate BreaksOff(l: Layout, argv: seq<string>, disk: map<string, bytes>, m: nat, text: string) {
    && m < |argv| && argv[m] !in disk && (forall k | 0 <= k < m :: argv[k] in disk)
    && text == l.p.before + Decls(l, 1, FilesOf(argv[..m], disk))
  }
}
