/**
 Paths as the script builds and judges them: `os.path.join`, the skip list and
 the selection of text files.
 */
module Paths {

  /** A path up to and including the separator that a name is appended to. */
  function Base(path: string): string {
    if path == "" || path[|path| - 1] == '/' then path else path + "/"
  }

  /** `os.path.join(path, name)` for a relative `name`. */
  function Join(path: string, name: string): string {
    Base(path) + name
  }

  /** A name that a directory can list. */
  predicate ValidName(name: string) {
    name != "" && '/' !in name
  }

  predicate ValidNames(names: seq<string>) {
    forall i | 0 <= i < |names| :: ValidName(names[i])
  }

  /** The path that the names lead to, one below the other. */
  function Descend(path: string, names: seq<string>): string
    decreases names
  {
    if names == [] then path else Descend(Join(path, names[0]), names[1..])
  }

  const TEXT_EXTENSIONS: set<string> := {
    ".cpp", ".h", ".c", ".cc", ".cxx", ".inl", ".ipp", ".tpp", ".txx",
    ".py", ".sh", ".bash",
    ".md", ".txt", ".rst",
    ".conf", ".service", ".plist",
    ".cmake", ".ts", ".proto",
    ".json", ".yaml", ".yml",
    ".fish", ".supp", ".toml",
    ".iss", ".in", ".am"
  }

  const TEXT_FILENAMES: set<string> := {"CMakeLists.txt", "Makefile", "Dockerfile"}

  /** `SKIP_PATHS` for a repository root. */
  function SkipPaths(root: string): set<string> {
    {
      Join(root, "build"),
      Join(root, ".git"),
      Join(Join(Join(root, "utils"), "gpg_keys"), "moneromooo.asc"),
      Join(Join(root, "scripts"), "rebrand.py")
    }
  }

  predicate AtOrBelow(skip: string, path: string) {
    path == skip || skip + "/" <= path
  }

  /** The path is in the skip list or below something that is. */
  predicate Skipped(root: string, path: string) {
    exists skip | skip in SkipPaths(root) :: AtOrBelow(skip, path)
  }

  /** `os.path.basename`: what follows the last separator. */
  function Basename(path: string): (name: string)
    ensures |name| <= |path| && name == path[|path| - |name|..]
    ensures '/' !in name && (|name| < |path| ==> path[|path| - |name| - 1] == '/')
  {
    if path == "" || path[|path| - 1] == '/' then ""
    else
      var init := path[..|path| - 1];
      var name := Basename(init);
      assert path == init + [path[|path| - 1]];
      name + [path[|path| - 1]]
  }

  /** `name.rfind(".")` */
  function LastDot(name: string): (i: int)
    ensures -1 <= i < |name|
    ensures i >= 0 ==> name[i] == '.'
    ensures forall k | i < k < |name| :: name[k] != '.'
  {
    if name == "" then -1
    else if name[|name| - 1] == '.' then |name| - 1
    else LastDot(name[..|name| - 1])
  }

  /** `os.path.splitext(name)[1]` of a basename: leading dots start no extension. */
  function Extension(name: string): (ext: string)
    ensures |ext| <= |name| && ext == name[|name| - |ext|..]
    ensures ext != "" ==> ext[0] == '.' && forall k | 0 < k < |ext| :: ext[k] != '.'
  {
    var dot := LastDot(name);
    if exists i | 0 <= i < dot :: name[i] != '.' then name[dot..] else ""
  }

  /** `should_process`, for a case folding `lower`. */
  predicate ShouldProcess(lower: string -> string, root: string, path: string) {
    && !Skipped(root, path)
    && (var name := Basename(path); name in TEXT_FILENAMES || lower(Extension(name)) in TEXT_EXTENSIONS)
  }

  /** Whatever is below a skipped directory is skipped. */
  lemma SkippedBelow(root: string, dir: string, path: string)
    requires Skipped(root, dir) && dir + "/" <= path
    ensures Skipped(root, path)
  {
    var skip :| skip in SkipPaths(root) && AtOrBelow(skip, dir);
    assert AtOrBelow(skip, path);
  }

  /** `os.path.relpath(path, root)` of a path below the root. */
  function Relative(root: string, path: string): (rel: string)
    requires Base(root) <= path
    ensures Join(root, rel) == path
  {
    path[|Base(root)|..]
  }

  /** The basename of a listed file is the name it was listed by. */
  lemma BasenameOfJoin(path: string, name: string)
    requires ValidName(name)
    ensures Basename(Join(path, name)) == name
  {
    LastName(Join(path, name), name);
  }

  /** What follows the last separator, if anything precedes it. */
  lemma {:induction false} LastName(path: string, name: string)
    requires '/' !in name && |name| <= |path| && path[|path| - |name|..] == name
    requires |name| < |path| ==> path[|path| - |name| - 1] == '/'
    ensures Basename(path) == name
  {
    if name != "" {
      var last := name[|name| - 1];
      var init, name' := path[..|path| - 1], name[..|name| - 1];
      assert path[|path| - |name|..][|name| - 1] == last == path[|path| - 1];
      assert name == name' + [last];
      assert init[|init| - |name'|..] == name';
      LastName(init, name');
    }
  }

  /** The extension is what follows the last dot, if a character other than a dot precedes that. */
  lemma ExtensionOf(stem: string, ext: string)
    requires '.' !in ext
    ensures Extension(stem + "." + ext) == if exists i | 0 <= i < |stem| :: stem[i] != '.' then "." + ext else ""
  {
    var name := stem + "." + ext;
    assert name[|stem|] == '.';
    assert LastDot(name) == |stem| by {
      assert forall k | |stem| < k < |name| :: name[k] == ext[k - |stem| - 1];
    }
    assert forall i | 0 <= i < |stem| :: name[i] == stem[i];
    assert name[|stem|..] == "." + ext;
  }

  /** The name is a stem that is not all dots, a dot, and an extension without any. */
  predicate HasExtension(name: string, stem: string, ext: string) {
    name == stem + "." + ext && '.' !in ext && exists i | 0 <= i < |stem| :: stem[i] != '.'
  }

  lemma ExtensionSplits(name: string) returns (stem: string, ext: string)
    requires Extension(name) != ""
    ensures HasExtension(name, stem, ext) && Extension(name) == "." + ext
  {
    var dot := LastDot(name);
    stem, ext := name[..dot], name[dot + 1..];
    assert name[dot..] == "." + ext;
    assert name == stem + "." + ext;
  }

  lemma DescendOne(path: string, name: string)
    ensures Descend(path, [name]) == Join(path, name)
  {
    assert [name][1..] == [];
  }

  /** The names with separators between them. */
  function Slashed(names: seq<string>): string {
    if names == [] then "" else if |names| == 1 then names[0] else names[0] + "/" + Slashed(names[1..])
  }

  lemma BaseOfJoin(path: string, name: string)
    requires ValidName(name)
    ensures Base(Join(path, name)) == Base(path) + name + "/"
  {
  }

  lemma {:induction false} DescendBase(path: string, names: seq<string>)
    requires ValidNames(names) && names != []
    ensures Descend(path, names) == Base(path) + Slashed(names)
    decreases names
  {
    if |names| == 1 {
      DescendOne(path, names[0]);
      assert names == [names[0]];
    } else {
      DescendBase(Join(path, names[0]), names[1..]);
      BaseOfJoin(path, names[0]);
      JoinParts(Base(path), names[0], Slashed(names[1..]));
    }
  }

  lemma JoinParts(base: string, name: string, rest: string)
    ensures base + name + "/" + rest == base + (name + "/" + rest)
  {
  }

  /** A path below another is that path, a separator unless it ends in one, and the names in between. */
  lemma DescendIs(path: string, names: seq<string>)
    requires ValidNames(names) && names != []
    ensures Descend(path, names)
            == if path == "" || path[|path| - 1] == '/' then path + Slashed(names) else path + "/" + Slashed(names)
  {
    DescendBase(path, names);
  }

  // --- The skip list, name by name ---

  /** Both names follow `base` in the same path, so they are the same. */
  lemma SameName(base: string, a: string, b: string, path: string)
    requires ValidName(a) && ValidName(b) && base + a + "/" <= path && base + b + "/" <= path
    ensures a == b
  {
    assert path[|base|..][..|a|] == a && path[|base|..][..|b|] == b;
    assert path[|base| + |a|] == '/' && path[|base| + |b|] == '/';
  }

  /** A descent starts with its first name. */
  lemma {:induction false} DescendStarts(path: string, names: seq<string>)
    requires ValidNames(names)
    ensures names == [] ==> Descend(path, names) == path
    ensures names != [] ==> Base(path) + names[0] + "/" <= Descend(path, names) + "/"
    ensures names != [] ==> |Descend(path, names)| > |path|
    ensures |names| > 1 ==> Base(path) + names[0] + "/" <= Descend(path, names)
    decreases names
  {
    if |names| > 1 {
      var at := Join(path, names[0]);
      DescendStarts(at, names[1..]);
      BaseOfJoin(path, names[0]);
      assert Base(at) <= Descend(at, names[1..]) + "/";
      assert |Base(at)| <= |Descend(at, names[1..])|;
    }
  }

  /** The one path is the other or below it exactly when its names start with those of the other. */
  lemma {:induction false} BelowIff(path: string, a: seq<string>, b: seq<string>)
    requires ValidNames(a) && ValidNames(b) && b != []
    ensures AtOrBelow(Descend(path, b), Descend(path, a)) <==> b <= a
    decreases |b|
  {
    DescendStarts(path, a);
    DescendStarts(path, b);
    if a != [] {
      if a[0] == b[0] {
        NextBelow(path, a, b);
      } else {
        OtherName(path, a, b);
      }
    }
  }

  lemma OtherName(path: string, a: seq<string>, b: seq<string>)
    requires ValidNames(a) && ValidNames(b) && a != [] && b != [] && a[0] != b[0]
    ensures !AtOrBelow(Descend(path, b), Descend(path, a))
  {
    DescendStarts(path, a);
    DescendStarts(path, b);
    var x := Descend(path, a) + "/";
    if Base(path) + a[0] + "/" <= x && Base(path) + b[0] + "/" <= x {
      SameName(Base(path), a[0], b[0], x);
    }
  }

  lemma {:induction false} NextBelow(path: string, a: seq<string>, b: seq<string>)
    requires ValidNames(a) && ValidNames(b) && a != [] && b != [] && a[0] == b[0]
    ensures AtOrBelow(Descend(path, b), Descend(path, a)) <==> b <= a
    decreases |b|, 0
  {
    var at := Join(path, a[0]);
    if |b| == 1 {
      assert b <= a;
      BaseOfJoin(path, a[0]);
      DescendStarts(path, a);
      assert |a| == 1 ==> a == b;
    } else {
      BelowIff(at, a[1..], b[1..]);
      assert a == [a[0]] + a[1..] && b == [b[0]] + b[1..];
    }
  }

  /** What the script skips, by the names below the root. */
  predicate SkipNames(names: seq<string>) {
    || (|names| >= 1 && (names[0] == "build" || names[0] == ".git"))
    || (|names| >= 2 && names[0] == "scripts" && names[1] == "rebrand.py")
    || (|names| >= 3 && names[0] == "utils" && names[1] == "gpg_keys" && names[2] == "moneromooo.asc")
  }

  lemma SkipPathsByName(root: string)
    ensures SkipPaths(root) == {Descend(root, ["build"]), Descend(root, [".git"]),
                                Descend(root, ["scripts", "rebrand.py"]),
                                Descend(root, ["utils", "gpg_keys", "moneromooo.asc"])}
  {
    DescendOne(root, "build");
    DescendOne(root, ".git");
    DescendTwo(root, "scripts", "rebrand.py");
    assert ["utils", "gpg_keys", "moneromooo.asc"][1..] == ["gpg_keys", "moneromooo.asc"];
    DescendTwo(Join(root, "utils"), "gpg_keys", "moneromooo.asc");
  }

  lemma DescendTwo(path: string, a: string, b: string)
    ensures Descend(path, [a, b]) == Join(Join(path, a), b)
  {
    assert [a, b][1..] == [b];
    DescendOne(Join(path, a), b);
  }

  lemma SkipNamesIff(names: seq<string>)
    ensures SkipNames(names) <==> || ["build"] <= names || [".git"] <= names || ["scripts", "rebrand.py"] <= names
                                  || ["utils", "gpg_keys", "moneromooo.asc"] <= names
  {
    assert |names| >= 1 ==> names[..1] == [names[0]];
    assert |names| >= 2 ==> names[..2] == [names[0], names[1]];
    assert |names| >= 3 ==> names[..3] == [names[0], names[1], names[2]];
  }

  /** A path is skipped exactly by its first names, in full. */
  lemma SkippedIff(root: string, names: seq<string>)
    requires ValidNames(names)
    ensures Skipped(root, Descend(root, names)) <==> SkipNames(names)
  {
    SkipPathsByName(root);
    SkipNamesIff(names);
    SkipListsAreValid();
    SkippedByStart(root, names, ["build"], [".git"], ["scripts", "rebrand.py"],
                   ["utils", "gpg_keys", "moneromooo.asc"]);
  }

  lemma SkippedByStart(root: string, names: seq<string>, a: seq<string>, b: seq<string>, c: seq<string>, d: seq<string>)
    requires ValidNames(names) && ValidNames(a) && ValidNames(b) && ValidNames(c) && ValidNames(d)
    requires a != [] && b != [] && c != [] && d != []
    requires SkipPaths(root) == {Descend(root, a), Descend(root, b), Descend(root, c), Descend(root, d)}
    ensures Skipped(root, Descend(root, names)) <==> a <= names || b <= names || c <= names || d <= names
  {
    BelowIff(root, names, a);
    BelowIff(root, names, b);
    BelowIff(root, names, c);
    BelowIff(root, names, d);
    AnyOfFour(SkipPaths(root), Descend(root, a), Descend(root, b), Descend(root, c), Descend(root, d),
              Descend(root, names));
  }

  lemma AnyOfFour(skips: set<string>, a: string, b: string, c: string, d: string, path: string)
    requires skips == {a, b, c, d}
    ensures (exists skip | skip in skips :: AtOrBelow(skip, path))
            <==> AtOrBelow(a, path) || AtOrBelow(b, path) || AtOrBelow(c, path) || AtOrBelow(d, path)
  {
    assert a in skips && b in skips && c in skips && d in skips;
  }

  lemma SkipListsAreValid()
    ensures ValidNames(["build"]) && ValidNames([".git"]) && ValidNames(["scripts", "rebrand.py"])
    ensures ValidNames(["utils", "gpg_keys", "moneromooo.asc"])
  {
    assert ValidName("build") && ValidName(".git") && ValidName("scripts") && ValidName("rebrand.py");
    assert ValidName("utils") && ValidName("gpg_keys") && ValidName("moneromooo.asc");
  }

  // --- The selection, name by name ---

  /** The file name marks a text, for a case folding `lower`. */
  ghost predicate TextName(lower: string -> string, name: string) {
    || name == "CMakeLists.txt" || name == "Makefile" || name == "Dockerfile"
    || ExtensionIs(lower, name, TextExtension)
  }

  /** The name has an extension, and the folded extension is such a one. */
  ghost predicate ExtensionIs(lower: string -> string, name: string, such: string -> bool) {
    exists stem, ext :: HasExtension(name, stem, ext) && such(lower("." + ext))
  }

  predicate TextExtension(ext: string) {
    || ext == ".cpp" || ext == ".h" || ext == ".c" || ext == ".cc" || ext == ".cxx" || ext == ".inl"
    || ext == ".ipp" || ext == ".tpp" || ext == ".txx" || ext == ".py" || ext == ".sh" || ext == ".bash"
    || ext == ".md" || ext == ".txt" || ext == ".rst" || ext == ".conf" || ext == ".service" || ext == ".plist"
    || ext == ".cmake" || ext == ".ts" || ext == ".proto" || ext == ".json" || ext == ".yaml" || ext == ".yml"
    || ext == ".fish" || ext == ".supp" || ext == ".toml" || ext == ".iss" || ext == ".in" || ext == ".am"
  }

  lemma TextExtensionIff(ext: string)
    ensures ext in TEXT_EXTENSIONS <==> TextExtension(ext)
  {
  }

  lemma ExtensionIsIff(lower: string -> string, name: string, such: string -> bool)
    requires lower("") == "" && !such("")
    ensures such(lower(Extension(name))) <==> ExtensionIs(lower, name, such)
  {
    if Extension(name) != "" {
      var stem, ext := ExtensionSplits(name);
    }
    forall stem, ext | HasExtension(name, stem, ext) ensures Extension(name) == "." + ext {
      ExtensionOf(stem, ext);
    }
  }

  /** A listed file is processed exactly when it is not skipped and its name marks a text. */
  lemma ListedIff(lower: string -> string, root: string, dir: string, name: string)
    requires ValidName(name) && lower("") == ""
    ensures ShouldProcess(lower, root, Join(dir, name)) <==> !Skipped(root, Join(dir, name)) && TextName(lower, name)
  {
    BasenameOfJoin(dir, name);
    NamedIff(lower, name);
  }

  lemma NamedIff(lower: string -> string, name: string)
    requires lower("") == ""
    ensures name in TEXT_FILENAMES || lower(Extension(name)) in TEXT_EXTENSIONS <==> TextName(lower, name)
  {
    FixedNameIff(name);
    ExtensionTextIff(lower, name);
  }

  lemma FixedNameIff(name: string)
    ensures name in TEXT_FILENAMES <==> name == "CMakeLists.txt" || name == "Makefile" || name == "Dockerfile"
  {
  }

  lemma ExtensionTextIff(lower: string -> string, name: string)
    requires lower("") == ""
    ensures lower(Extension(name)) in TEXT_EXTENSIONS <==> ExtensionIs(lower, name, TextExtension)
  {
    TextExtensionIff(lower(Extension(name)));
    ExtensionIsIff(lower, name, TextExtension);
  }

  lemma {:induction false} DescendLast(path: string, names: seq<string>)
    requires names != []
    ensures Descend(path, names) == Join(Descend(path, names[..|names| - 1]), names[|names| - 1])
    decreases names
  {
    if |names| > 1 {
      DescendLast(Join(path, names[0]), names[1..]);
      assert names[1..][..|names| - 2] == names[..|names| - 1][1..];
    }
  }

  /** `should_process` of a path below the root: exactly when its names are not among the skipped ones
      and the last marks a text. */
  lemma ShouldProcessIff(lower: string -> string, root: string, names: seq<string>)
    requires names != [] && ValidNames(names) && lower("") == ""
    ensures ShouldProcess(lower, root, Descend(root, names))
            <==> !SkipNames(names) && TextName(lower, names[|names| - 1])
  {
    var n := |names| - 1;
    DescendLast(root, names);
    SkippedIff(root, names);
    ListedIff(lower, root, Descend(root, names[..n]), names[n]);
  }
}
