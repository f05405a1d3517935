/**
 The run of the rebranding script over a directory tree: the pruned walk, the
 files it rewrites, and the report.
 */
module Walk {
  import opened Bytes
  import opened Chain
  import opened Paths

  /** Everything a run depends on besides the tree: Python's word characters and text codec, the
      replacement list, the root, which file a path leads to (several may lead to one, through links),
      the files that cannot be written, and the selection by path: what to process and the directories
      not to enter. */
  datatype Script = Script(
    isWord: char -> bool,
    decode: bytes -> string,
    encode: string -> bytes,
    rules: seq<Rule>,
    root: string,
    file: string -> string,
    locked: set<string>,
    eligible: string -> bool,
    pruned: string -> bool
  )

  /** No file below a pruned directory is to be processed. */
  ghost predicate PrunesOnlySkipped(s: Script) {
    forall at, path | s.pruned(at) && at + "/" <= path :: !s.eligible(path)
  }

  /** The text survives being written to a file and read again. */
  ghost predicate Legible(s: Script, text: string) {
    s.decode(s.encode(text)) == text
  }

  /** The list is disciplined, and a rewritten file reads back as what was written. */
  ghost predicate Sound(s: Script) {
    && Proper(s.rules) && Disciplined(s.isWord, s.rules)
    && forall content :: Legible(s, Apply(s.isWord, s.rules, s.decode(content)))
  }

  /** A directory: its files, and its subdirectories by name, in the order they are listed. A link to a
      directory is listed but not followed, so it stands there as an empty one. */
  datatype Dir = Dir(files: seq<string>, subs: seq<Sub>)
  datatype Sub = Sub(name: string, dir: Dir)

  predicate ValidDir(dir: Dir) {
    && (forall i | 0 <= i < |dir.files| :: ValidName(dir.files[i]))
    && (forall i | 0 <= i < |dir.subs| :: ValidName(dir.subs[i].name) && ValidDir(dir.subs[i].dir))
  }

  // --- One file ---

  /** The contents of the files. A file that a path leads to but that is missing here cannot be read. */
  type Disk = map<string, bytes>

  /** The first 8192 bytes hold a NUL. */
  predicate IsBinary(content: bytes) {
    0 in if |content| < 8192 then content else content[..8192]
  }

  /** The file would be rewritten. */
  predicate Dirty(s: Script, disk: Disk, f: string)
    requires Proper(s.rules)
  {
    && f in disk && !IsBinary(disk[f]) && f !in s.locked
    && Apply(s.isWord, s.rules, s.decode(disk[f])) != s.decode(disk[f])
  }

  /** The disk after `process_file` of a path that leads to the file. */
  function Processed(s: Script, disk: Disk, f: string): Disk
    requires Proper(s.rules)
  {
    if Dirty(s, disk, f) then disk[f := s.encode(Apply(s.isWord, s.rules, s.decode(disk[f])))] else disk
  }

  /** A file just processed would not be rewritten again. */
  lemma ProcessedIsDone(s: Script, disk: Disk, f: string)
    requires Sound(s)
    ensures !Dirty(s, Processed(s, disk, f), f)
  {
    if Dirty(s, disk, f) {
      var text := s.decode(disk[f]);
      assert Legible(s, Apply(s.isWord, s.rules, text));
      Idempotent(s.isWord, s.rules, text);
    }
  }

  // --- The walk ---

  /** The files a walk of `dir` at `path` comes by, in order: those of the directory itself, then
      those of each subdirectory -- unless pruning is on and the subdirectory is in the skip list. */
  function Visited(s: Script, prune: bool, path: string, dir: Dir): seq<string>
    decreases dir, 1
  {
    FilesAt(path, dir.files) + VisitedBelow(s, prune, path, dir.subs)
  }

  function FilesAt(path: string, files: seq<string>): (paths: seq<string>)
    ensures |paths| == |files| && forall i | 0 <= i < |files| :: paths[i] == Join(path, files[i])
  {
    seq(|files|, i requires 0 <= i < |files| => Join(path, files[i]))
  }

  function VisitedBelow(s: Script, prune: bool, path: string, subs: seq<Sub>): seq<string>
    decreases subs, 0
  {
    if subs == [] then []
    else VisitedSub(s, prune, path, subs[0]) + VisitedBelow(s, prune, path, subs[1..])
  }

  function VisitedSub(s: Script, prune: bool, path: string, sub: Sub): seq<string>
    decreases sub, 2
  {
    var at := Join(path, sub.name);
    if prune && s.pruned(at) then [] else Visited(s, prune, at, sub.dir)
  }

  /** What a run has done so far. */
  datatype State = State(disk: Disk, changed: seq<string>, skipped: nat)

  predicate AllStartWith(base: string, paths: seq<string>) {
    forall i | 0 <= i < |paths| :: base <= paths[i]
  }

  /** All paths are below the root. */
  predicate Inside(s: Script, paths: seq<string>) {
    AllStartWith(Base(s.root), paths)
  }

  function Handle(s: Script, path: string, st: State): State
    requires Proper(s.rules) && Base(s.root) <= path
  {
    if !s.eligible(path) then st.(skipped := st.skipped + 1)
    else if Dirty(s, st.disk, s.file(path)) then
      State(Processed(s, st.disk, s.file(path)), st.changed + [Relative(s.root, path)], st.skipped)
    else st
  }

  /** The body of the walk's loop, for a sequence of files. */
  function HandleAll(s: Script, paths: seq<string>, st: State): State
    requires Proper(s.rules) && Inside(s, paths)
  {
    if paths == [] then st else HandleAll(s, paths[1..], Handle(s, paths[0], st))
  }

  lemma {:induction false} HandleConcat(s: Script, a: seq<string>, b: seq<string>, st: State)
    requires Proper(s.rules) && Inside(s, a) && Inside(s, b)
    ensures Inside(s, a + b) && HandleAll(s, a + b, st) == HandleAll(s, b, HandleAll(s, a, st))
  {
    if a == [] {
      assert a + b == b;
    } else {
      HandleConcat(s, a[1..], b, Handle(s, a[0], st));
      assert (a + b)[1..] == a[1..] + b;
    }
  }

  /** A run of `main`: from the root, with an empty report. */
  function Run(s: Script, prune: bool, dir: Dir, disk: Disk): State
    requires Proper(s.rules)
  {
    VisitedInside(s, prune, s.root, dir);
    HandleAll(s, Visited(s, prune, s.root, dir), State(disk, [], 0))
  }

  lemma JoinBelow(base: string, path: string, name: string)
    requires base <= Base(path)
    ensures base <= Join(path, name) && base <= Base(Join(path, name))
  {
  }

  /** The walk stays below the directory it starts from. */
  lemma {:induction false} VisitedInsideOf(base: string, s: Script, prune: bool, path: string, dir: Dir)
    requires base <= Base(path)
    ensures AllStartWith(base, Visited(s, prune, path, dir))
    decreases dir, 1
  {
    SubsInsideOf(base, s, prune, path, dir.subs);
  }

  lemma {:induction false} SubsInsideOf(base: string, s: Script, prune: bool, path: string, subs: seq<Sub>)
    requires base <= Base(path)
    ensures AllStartWith(base, VisitedBelow(s, prune, path, subs))
    decreases subs, 0
  {
    if subs != [] {
      SubsInsideOf(base, s, prune, path, subs[1..]);
      JoinBelow(base, path, subs[0].name);
      VisitedInsideOf(base, s, prune, Join(path, subs[0].name), subs[0].dir);
    }
  }

  lemma VisitedInside(s: Script, prune: bool, path: string, dir: Dir)
    requires Base(s.root) <= Base(path)
    ensures Inside(s, Visited(s, prune, path, dir))
  {
    VisitedInsideOf(Base(s.root), s, prune, path, dir);
  }

  // --- Pruning changes nothing but the count of skipped files ---

  /** The eligible files among those visited. */
  function Chosen(s: Script, paths: seq<string>): (chosen: seq<string>)
    ensures |chosen| <= |paths|
    ensures forall i | 0 <= i < |chosen| :: chosen[i] in paths && s.eligible(chosen[i])
  {
    if paths == [] then []
    else if s.eligible(paths[0]) then [paths[0]] + Chosen(s, paths[1..])
    else Chosen(s, paths[1..])
  }

  lemma {:induction false} ChosenConcat(s: Script, a: seq<string>, b: seq<string>)
    ensures Chosen(s, a + b) == Chosen(s, a) + Chosen(s, b)
  {
    if a == [] {
      assert a + b == b;
    } else {
      ChosenConcat(s, a[1..], b);
      assert (a + b)[0] == a[0] && (a + b)[1..] == a[1..] + b;
      ChosenHead(s, a);
      ChosenHead(s, a + b);
      JoinChosen(if s.eligible(a[0]) then [a[0]] else [], Chosen(s, a[1..]), Chosen(s, b));
    }
  }

  lemma ChosenHead(s: Script, paths: seq<string>)
    requires paths != []
    ensures Chosen(s, paths) == (if s.eligible(paths[0]) then [paths[0]] else []) + Chosen(s, paths[1..])
  {
  }

  lemma JoinChosen(a: seq<string>, b: seq<string>, c: seq<string>)
    ensures (a + b) + c == a + (b + c)
  {
  }

  lemma {:induction false} OnlyChosenMatter(s: Script, paths: seq<string>, st: State)
    requires Proper(s.rules) && Inside(s, paths)
    ensures HandleAll(s, paths, st).disk == HandleAll(s, Chosen(s, paths), st).disk
    ensures HandleAll(s, paths, st).changed == HandleAll(s, Chosen(s, paths), st).changed
    ensures HandleAll(s, paths, st).skipped == st.skipped + |paths| - |Chosen(s, paths)|
    ensures HandleAll(s, Chosen(s, paths), st).skipped == st.skipped
  {
    if paths != [] {
      var rest := paths[1..];
      OnlyChosenMatter(s, rest, Handle(s, paths[0], st));
      if s.eligible(paths[0]) {
        assert Chosen(s, paths)[1..] == Chosen(s, rest);
      } else {
        SkippedIsApart(s, Chosen(s, rest), st);
      }
    }
  }

  lemma {:induction false} SkippedIsApart(s: Script, paths: seq<string>, st: State)
    requires Proper(s.rules) && Inside(s, paths)
    ensures var later := HandleAll(s, paths, st.(skipped := st.skipped + 1));
            later == HandleAll(s, paths, st).(skipped := later.skipped)
    ensures HandleAll(s, paths, st.(skipped := st.skipped + 1)).skipped == HandleAll(s, paths, st).skipped + 1
  {
    if paths != [] {
      SkippedIsApart(s, paths[1..], Handle(s, paths[0], st));
    }
  }

  /** Nothing below a skipped directory is eligible. */
  lemma NoneChosen(s: Script, path: string, dir: Dir)
    requires PrunesOnlySkipped(s) && s.pruned(path) && Base(path) == path + "/"
    ensures Chosen(s, Visited(s, false, path, dir)) == []
  {
    VisitedInsideOf(path + "/", s, false, path, dir);
    NoneEligible(s, Visited(s, false, path, dir));
  }

  lemma {:induction false} NoneEligible(s: Script, paths: seq<string>)
    requires forall i | 0 <= i < |paths| :: !s.eligible(paths[i])
    ensures Chosen(s, paths) == []
  {
    if paths != [] { NoneEligible(s, paths[1..]); }
  }

  /** The pruned walk comes by the same eligible files, in the same order. */
  lemma {:induction false} SameChosen(s: Script, path: string, dir: Dir)
    requires PrunesOnlySkipped(s) && ValidDir(dir)
    ensures Chosen(s, Visited(s, true, path, dir)) == Chosen(s, Visited(s, false, path, dir))
    decreases dir, 1
  {
    var files := FilesAt(path, dir.files);
    SameChosenBelow(s, path, dir.subs);
    ChosenConcat(s, files, VisitedBelow(s, true, path, dir.subs));
    ChosenConcat(s, files, VisitedBelow(s, false, path, dir.subs));
  }

  lemma {:induction false} SameChosenBelow(s: Script, path: string, subs: seq<Sub>)
    requires PrunesOnlySkipped(s)
    requires forall i | 0 <= i < |subs| :: ValidName(subs[i].name) && ValidDir(subs[i].dir)
    ensures Chosen(s, VisitedBelow(s, true, path, subs)) == Chosen(s, VisitedBelow(s, false, path, subs))
    decreases subs, 0
  {
    if subs != [] {
      var at := Join(path, subs[0].name);
      SameChosenBelow(s, path, subs[1..]);
      if s.pruned(at) {
        NoneChosen(s, at, subs[0].dir);
      } else {
        SameChosen(s, at, subs[0].dir);
      }
      ChosenConcat(s, VisitedSub(s, true, path, subs[0]), VisitedBelow(s, true, path, subs[1..]));
      ChosenConcat(s, VisitedSub(s, false, path, subs[0]), VisitedBelow(s, false, path, subs[1..]));
    }
  }

  /** The number of files in a directory and below. */
  function CountFiles(dir: Dir): nat
    decreases dir, 1
  {
    |dir.files| + CountBelow(dir.subs)
  }

  function CountBelow(subs: seq<Sub>): nat
    decreases subs, 0
  {
    if subs == [] then 0 else CountFiles(subs[0].dir) + CountBelow(subs[1..])
  }

  /** The number of files below the directories that the walk does not enter. */
  function CountPruned(s: Script, path: string, subs: seq<Sub>): nat
    decreases subs
  {
    if subs == [] then 0
    else
      var at := Join(path, subs[0].name);
      (if s.pruned(at) then CountFiles(subs[0].dir) else CountPruned(s, at, subs[0].dir.subs))
      + CountPruned(s, path, subs[1..])
  }

  lemma {:induction false} VisitedCount(s: Script, path: string, dir: Dir)
    ensures |Visited(s, false, path, dir)| == CountFiles(dir)
    decreases dir, 1
  {
    VisitedCountBelow(s, path, dir.subs);
  }

  lemma {:induction false} VisitedCountBelow(s: Script, path: string, subs: seq<Sub>)
    ensures |VisitedBelow(s, false, path, subs)| == CountBelow(subs)
    decreases subs, 0
  {
    if subs != [] {
      VisitedCount(s, Join(path, subs[0].name), subs[0].dir);
      VisitedCountBelow(s, path, subs[1..]);
    }
  }

  lemma {:induction false} PrunedCount(s: Script, path: string, subs: seq<Sub>)
    ensures |VisitedBelow(s, false, path, subs)| == |VisitedBelow(s, true, path, subs)| + CountPruned(s, path, subs)
    decreases subs
  {
    if subs != [] {
      var at, dir := Join(path, subs[0].name), subs[0].dir;
      PrunedCount(s, path, subs[1..]);
      assert |VisitedSub(s, false, path, subs[0])| == |Visited(s, false, at, dir)|;
      if s.pruned(at) {
        VisitedCount(s, at, dir);
      } else {
        PrunedCount(s, at, dir.subs);
        assert |VisitedSub(s, true, path, subs[0])| == |dir.files| + |VisitedBelow(s, true, at, dir.subs)|;
      }
    }
  }

  /** Pruning refines the plain walk filtered by `should_process`: the same files are rewritten, to the
      same contents and in the same order; only the files below pruned directories go uncounted. */
  lemma PruningRefines(s: Script, dir: Dir, disk: Disk)
    requires Proper(s.rules) && PrunesOnlySkipped(s) && ValidDir(dir)
    ensures Run(s, true, dir, disk).disk == Run(s, false, dir, disk).disk
    ensures Run(s, true, dir, disk).changed == Run(s, false, dir, disk).changed
    ensures Run(s, false, dir, disk).skipped == Run(s, true, dir, disk).skipped + CountPruned(s, s.root, dir.subs)
  {
    var st := State(disk, [], 0);
    VisitedInside(s, true, s.root, dir);
    VisitedInside(s, false, s.root, dir);
    SameChosen(s, s.root, dir);
    OnlyChosenMatter(s, Visited(s, true, s.root, dir), st);
    OnlyChosenMatter(s, Visited(s, false, s.root, dir), st);
    PrunedCount(s, s.root, dir.subs);
  }

  // --- A second run ---

  /** What is done stays done while other files are processed. */
  lemma {:induction false} DoneStaysDone(s: Script, paths: seq<string>, st: State, f: string)
    requires Proper(s.rules) && Inside(s, paths) && !Dirty(s, st.disk, f)
    ensures !Dirty(s, HandleAll(s, paths, st).disk, f)
  {
    if paths != [] {
      DoneStaysDone(s, paths[1..], Handle(s, paths[0], st), f);
    }
  }

  /** Every file that was visited under an eligible path is done. */
  lemma {:induction false} AllDone(s: Script, paths: seq<string>, st: State, p: string)
    requires Sound(s) && Inside(s, paths) && p in paths && s.eligible(p)
    ensures !Dirty(s, HandleAll(s, paths, st).disk, s.file(p))
  {
    var st' := Handle(s, paths[0], st);
    if p == paths[0] {
      ProcessedIsDone(s, st.disk, s.file(p));
      DoneStaysDone(s, paths[1..], st', s.file(p));
    } else {
      AllDone(s, paths[1..], st', p);
    }
  }

  lemma {:induction false} NothingToDo(s: Script, paths: seq<string>, st: State)
    requires Proper(s.rules) && Inside(s, paths)
    requires forall p | p in paths && s.eligible(p) :: !Dirty(s, st.disk, s.file(p))
    ensures HandleAll(s, paths, st).disk == st.disk && HandleAll(s, paths, st).changed == st.changed
  {
    if paths != [] {
      assert paths[0] in paths;
      NothingToDo(s, paths[1..], Handle(s, paths[0], st));
    }
  }

  /** A run is a fixpoint: a second run right after it rewrites nothing and reports nothing changed. */
  lemma SecondRunIsIdle(s: Script, dir: Dir, disk: Disk)
    requires Sound(s)
    ensures var first := Run(s, true, dir, disk);
            var second := Run(s, true, dir, first.disk);
            second.disk == first.disk && second.changed == [] && second.skipped == first.skipped
  {
    var paths := Visited(s, true, s.root, dir);
    VisitedInside(s, true, s.root, dir);
    var first := Run(s, true, dir, disk);
    forall p | p in paths && s.eligible(p) ensures !Dirty(s, first.disk, s.file(p)) {
      AllDone(s, paths, State(disk, [], 0), p);
    }
    NothingToDo(s, paths, State(first.disk, [], 0));
    OnlyChosenMatter(s, paths, State(disk, [], 0));
    OnlyChosenMatter(s, paths, State(first.disk, [], 0));
  }

  // --- What a run does to each file, and what it reports ---

  /** One of the paths is to be processed and leads to the file. */
  predicate Touched(s: Script, paths: seq<string>, f: string) {
    exists i | 0 <= i < |paths| :: s.eligible(paths[i]) && s.file(paths[i]) == f
  }

  lemma TouchedHead(s: Script, paths: seq<string>, f: string)
    requires paths != []
    ensures Touched(s, paths, f) <==> (s.eligible(paths[0]) && s.file(paths[0]) == f) || Touched(s, paths[1..], f)
  {
    assert forall i | 0 < i < |paths| :: paths[i] == paths[1..][i - 1];
    assert forall i | 0 <= i < |paths[1..]| :: paths[1..][i] == paths[i + 1];
  }

  /** The exact effect of a run: each file that a visited and eligible path leads to is processed once, as
      if alone, and nothing else on the disk changes. */
  lemma {:induction false} DiskAfter(s: Script, paths: seq<string>, st: State, f: string)
    requires Sound(s) && Inside(s, paths)
    ensures HandleAll(s, paths, st).disk.Keys == st.disk.Keys
    ensures f in st.disk ==> HandleAll(s, paths, st).disk[f]
                             == if Touched(s, paths, f) then Processed(s, st.disk, f)[f] else st.disk[f]
  {
    if paths != [] {
      var st' := Handle(s, paths[0], st);
      DiskAfter(s, paths[1..], st', f);
      TouchedHead(s, paths, f);
      if f == s.file(paths[0]) { ProcessedIsDone(s, st.disk, f); }
    }
  }

  /** Said of the bytes themselves: a file that a visited, eligible path leads to is rewritten exactly when
      none of its first 8192 bytes is NUL, it can be written, and its text holds something to rewrite. */
  lemma FileEffect(s: Script, paths: seq<string>, st: State, f: string)
    requires Sound(s) && Inside(s, paths) && f in st.disk
    ensures f in HandleAll(s, paths, st).disk
    ensures var before, after := st.disk[f], HandleAll(s, paths, st).disk[f];
            var text := s.decode(before);
            if Touched(s, paths, f) && f !in s.locked && !Clean(s.isWord, s.rules, text)
               && (forall i | 0 <= i < |before| && i < 8192 :: before[i] != 0)
            then after == s.encode(Apply(s.isWord, s.rules, text))
            else after == before
  {
    DiskAfter(s, paths, st, f);
    var before := st.disk[f];
    UnchangedIffClean(s.isWord, s.rules, s.decode(before));
    assert IsBinary(before) == exists i | 0 <= i < |before| && i < 8192 :: before[i] == 0;
  }

  /** The path at index `k` is to be processed, leads to a file that is to be rewritten, and is the first
      that leads there. */
  predicate Rewrites(s: Script, paths: seq<string>, disk: Disk, k: nat)
    requires Proper(s.rules) && k < |paths|
  {
    && s.eligible(paths[k]) && Dirty(s, disk, s.file(paths[k]))
    && !Touched(s, paths[..k], s.file(paths[k]))
  }

  /** Those among the first `n` paths, as they are reported. */
  function Reported(s: Script, paths: seq<string>, disk: Disk, n: nat): seq<string>
    requires Proper(s.rules) && Inside(s, paths) && n <= |paths|
  {
    if n == 0 then []
    else
      Reported(s, paths, disk, n - 1)
      + if Rewrites(s, paths, disk, n - 1) then [Relative(s.root, paths[n - 1])] else []
  }

  lemma HandleNext(s: Script, paths: seq<string>, st: State, n: nat)
    requires Proper(s.rules) && Inside(s, paths) && n < |paths|
    ensures HandleAll(s, paths[..n + 1], st) == Handle(s, paths[n], HandleAll(s, paths[..n], st))
  {
    var path := paths[n];
    HandleConcat(s, paths[..n], [path], st);
    assert paths[..n + 1] == paths[..n] + [path];
    assert HandleAll(s, [path][1..], Handle(s, path, HandleAll(s, paths[..n], st)))
        == Handle(s, path, HandleAll(s, paths[..n], st));
  }

  /** When its turn comes, a file is still to be rewritten exactly if it was before the run and no
      earlier path led to it. */
  lemma StillDirty(s: Script, paths: seq<string>, st: State, f: string)
    requires Sound(s) && Inside(s, paths)
    ensures Dirty(s, HandleAll(s, paths, st).disk, f) <==> Dirty(s, st.disk, f) && !Touched(s, paths, f)
  {
    DiskAfter(s, paths, st, f);
    ProcessedIsDone(s, st.disk, f);
  }

  /** The report lists exactly the paths that are the first to lead to a file to be rewritten. */
  lemma {:induction false} ChangedExactly(s: Script, paths: seq<string>, st: State, n: nat)
    requires Sound(s) && Inside(s, paths) && n <= |paths|
    ensures HandleAll(s, paths[..n], st).changed == st.changed + Reported(s, paths, st.disk, n)
  {
    if n > 0 {
      ChangedExactly(s, paths, st, n - 1);
      HandleNext(s, paths, st, n - 1);
      StillDirty(s, paths[..n - 1], st, s.file(paths[n - 1]));
    }
  }

  /** The report of a run over a directory tree. */
  lemma ReportIsExact(s: Script, dir: Dir, disk: Disk)
    requires Sound(s)
    ensures var paths := Visited(s, true, s.root, dir);
            Inside(s, paths) && Run(s, true, dir, disk).changed == Reported(s, paths, disk, |paths|)
  {
    var paths := Visited(s, true, s.root, dir);
    VisitedInside(s, true, s.root, dir);
    ChangedExactly(s, paths, State(disk, [], 0), |paths|);
    assert paths[..|paths|] == paths;
  }

  /** Each file that the run rewrites is reported under one path, whatever links lead to it. */
  lemma ReportedOnce(s: Script, paths: seq<string>, disk: Disk, f: string) returns (k: nat)
    requires Proper(s.rules) && Dirty(s, disk, f) && Touched(s, paths, f)
    ensures k < |paths| && s.file(paths[k]) == f
    ensures forall i | 0 <= i < |paths| && s.file(paths[i]) == f :: Rewrites(s, paths, disk, i) <==> i == k
  {
    k := FirstTo(s, paths, f);
    forall i | k < i < |paths| ensures s.file(paths[i]) == f ==> !Rewrites(s, paths, disk, i) {
      assert paths[..i][k] == paths[k];
    }
    forall i | 0 <= i < k ensures s.file(paths[i]) == f ==> !Rewrites(s, paths, disk, i) {
      assert paths[..k][i] == paths[i];
    }
  }

  lemma {:induction false} FirstTo(s: Script, paths: seq<string>, f: string) returns (k: nat)
    requires Touched(s, paths, f)
    ensures k < |paths| && s.eligible(paths[k]) && s.file(paths[k]) == f && !Touched(s, paths[..k], f)
  {
    k :| 0 <= k < |paths| && s.eligible(paths[k]) && s.file(paths[k]) == f;
    if Touched(s, paths[..k], f) {
      var j := FirstTo(s, paths[..k], f);
      assert paths[..k][..j] == paths[..j];
      k := j;
    }
  }

  predicate Distinct(paths: seq<string>) {
    forall i, j | 0 <= i < j < |paths| :: paths[i] != paths[j]
  }

  /** No name is listed twice in a directory. */
  predicate DistinctDir(dir: Dir) {
    && Distinct(dir.files)
    && (forall i, j | 0 <= i < j < |dir.subs| :: dir.subs[i].name != dir.subs[j].name)
    && (forall i | 0 <= i < |dir.subs| :: DistinctDir(dir.subs[i].dir))
  }

  /** Below `base`, the path goes through the directory `name`. */
  predicate Through(base: string, name: string, path: string) {
    base + name + "/" <= path
  }

  lemma {:induction false} BelowGoesThrough(s: Script, prune: bool, path: string, subs: seq<Sub>, p: string)
    requires forall i | 0 <= i < |subs| :: ValidName(subs[i].name) && ValidDir(subs[i].dir)
    requires p in VisitedBelow(s, prune, path, subs)
    ensures exists i | 0 <= i < |subs| :: Through(Base(path), subs[i].name, p)
    decreases subs
  {
    if p in VisitedSub(s, prune, path, subs[0]) {
      SubGoesThrough(s, prune, path, subs[0], p);
    } else {
      BelowGoesThrough(s, prune, path, subs[1..], p);
      var i :| 0 <= i < |subs[1..]| && Through(Base(path), subs[1..][i].name, p);
      assert subs[1..][i] == subs[i + 1];
    }
  }

  lemma SubGoesThrough(s: Script, prune: bool, path: string, sub: Sub, p: string)
    requires ValidName(sub.name) && p in VisitedSub(s, prune, path, sub)
    ensures Through(Base(path), sub.name, p)
  {
    var at := Join(path, sub.name);
    assert Base(at) == Base(path) + sub.name + "/";
    VisitedInsideOf(Base(at), s, prune, at, sub.dir);
  }

  lemma {:induction false} VisitedDistinct(s: Script, prune: bool, path: string, dir: Dir)
    requires ValidDir(dir) && DistinctDir(dir)
    ensures Distinct(Visited(s, prune, path, dir))
    decreases dir, 1
  {
    BelowDistinct(s, prune, path, dir.subs);
    var files, below := FilesAt(path, dir.files), VisitedBelow(s, prune, path, dir.subs);
    forall i, j | 0 <= i < |files| && 0 <= j < |below| ensures files[i] != below[j] {
      BelowGoesThrough(s, prune, path, dir.subs, below[j]);
      FileGoesNowhere(path, dir.files[i], below[j], dir.subs);
    }
    assert Distinct(files) by {
      forall i, j | 0 <= i < j < |files| ensures files[i] != files[j] {
        assert files[i][|Base(path)|..] == dir.files[i] && files[j][|Base(path)|..] == dir.files[j];
      }
    }
  }

  lemma FileGoesNowhere(path: string, file: string, p: string, subs: seq<Sub>)
    requires ValidName(file) && exists i | 0 <= i < |subs| :: Through(Base(path), subs[i].name, p)
    ensures Join(path, file) != p
  {
    var i :| 0 <= i < |subs| && Through(Base(path), subs[i].name, p);
    var k := |subs[i].name|;
    assert p[|Base(path)| + k] == '/';
    assert |file| > k ==> Join(path, file)[|Base(path)| + k] == file[k];
  }

  lemma {:induction false} BelowDistinct(s: Script, prune: bool, path: string, subs: seq<Sub>)
    requires forall i | 0 <= i < |subs| :: ValidName(subs[i].name) && ValidDir(subs[i].dir) && DistinctDir(subs[i].dir)
    requires forall i, j | 0 <= i < j < |subs| :: subs[i].name != subs[j].name
    ensures Distinct(VisitedBelow(s, prune, path, subs))
    decreases subs, 0
  {
    if subs != [] {
      var here, rest := VisitedSub(s, prune, path, subs[0]), VisitedBelow(s, prune, path, subs[1..]);
      VisitedDistinct(s, prune, Join(path, subs[0].name), subs[0].dir);
      BelowDistinct(s, prune, path, subs[1..]);
      forall i, j | 0 <= i < |here| && 0 <= j < |rest| ensures here[i] != rest[j] {
        SubGoesThrough(s, prune, path, subs[0], here[i]);
        BelowGoesThrough(s, prune, path, subs[1..], rest[j]);
        var k :| 0 <= k < |subs[1..]| && Through(Base(path), subs[1..][k].name, rest[j]);
        if here[i] == rest[j] {
          SameName(Base(path), subs[0].name, subs[1..][k].name, here[i]);
        }
      }
    }
  }

  /** Without links, every visited path to a file to be rewritten is reported. */
  lemma ReportWithoutLinks(s: Script, dir: Dir, disk: Disk, k: nat)
    requires Proper(s.rules) && ValidDir(dir) && DistinctDir(dir)
    requires var paths := Visited(s, true, s.root, dir);
             k < |paths| && forall i | 0 <= i < k :: s.file(paths[i]) == s.file(paths[k]) ==> paths[i] == paths[k]
    ensures var paths := Visited(s, true, s.root, dir);
            Rewrites(s, paths, disk, k) <==> s.eligible(paths[k]) && Dirty(s, disk, s.file(paths[k]))
  {
    VisitedDistinct(s, true, s.root, dir);
    var paths := Visited(s, true, s.root, dir);
    assert forall i | 0 <= i < k :: paths[..k][i] == paths[i];
  }
}
