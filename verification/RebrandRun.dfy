/**
 The script itself: the state that a run updates in place, and the theorems
 about runs for the script's own list and selection of files.
 */
module RebrandRun {
  import opened Bytes
  import opened Chain
  import opened Paths
  import opened Rules
  import opened Walk

  class Rebrander {
    const script: Script
    var disk: Disk
    var changed: seq<string>
    var skipped: nat

    constructor (script: Script, disk: Disk)
      ensures this.script == script && Now() == State(disk, [], 0)
    {
      this.script, this.disk, this.changed, this.skipped := script, disk, [], 0;
    }

    function Now(): State
      reads this
    {
      State(disk, changed, skipped)
    }

    /** `process_file`: whether the file was rewritten. A file that cannot be read counts as binary. */
    method ProcessFile(path: string) returns (rewritten: bool)
      requires Proper(script.rules)
      modifies this`disk
      ensures rewritten == Dirty(script, old(disk), script.file(path))
      ensures disk == Processed(script, old(disk), script.file(path))
    {
      var file := script.file(path);
      if file !in disk || IsBinary(disk[file]) {
        return false;
      }
      var original := script.decode(disk[file]);
      var updated := ApplyReplacements(script.isWord, script.rules, original);
      if updated == original || file in script.locked {
        return false;
      }
      disk := disk[file := script.encode(updated)];
      return true;
    }

    /** The body of the walk's loop for one directory: its files, one by one. */
    method VisitFiles(path: string, files: seq<string>)
      requires Proper(script.rules)
      requires Base(script.root) <= Base(path)
      modifies this
      ensures Inside(script, FilesAt(path, files))
      ensures Now() == HandleAll(script, FilesAt(path, files), old(Now()))
    {
      ghost var paths := FilesAt(path, files);
      for i := 0 to |files|
        invariant Now() == HandleAll(script, paths[..i], old(Now()))
      {
        var filepath := Join(path, files[i]);
        ghost var before := Now();
        if !script.eligible(filepath) {
          skipped := skipped + 1;
        } else {
          var rewritten := ProcessFile(filepath);
          if rewritten {
            changed := changed + [Relative(script.root, filepath)];
          }
        }
        assert Now() == Handle(script, filepath, before);
        HandleConcat(script, paths[..i], [filepath], old(Now()));
        assert paths[..i + 1] == paths[..i] + [filepath];
      }
      assert paths[..|files|] == paths;
    }

    /** `dirnames[:] = ...`: the list without the directories in the skip list. */
    method Prune(path: string, subs: seq<Sub>) returns (dirnames: seq<Sub>)
      ensures dirnames == Kept(script, path, subs)
    {
      dirnames := [];
      for i := 0 to |subs|
        invariant dirnames == Kept(script, path, subs[..i])
      {
        assert subs[..i + 1][..i] == subs[..i];
        if !script.pruned(Join(path, subs[i].name)) {
          dirnames := dirnames + [subs[i]];
        }
      }
      assert subs[..|subs|] == subs;
    }

    /** The walk, top down: the files of a directory, then its subdirectories without the pruned ones. */
    method VisitDir(path: string, dir: Dir)
      requires Proper(script.rules)
      requires Base(script.root) <= Base(path)
      modifies this
      ensures Inside(script, Visited(script, true, path, dir))
      ensures Now() == HandleAll(script, Visited(script, true, path, dir), old(Now()))
      decreases dir
    {
      VisitFiles(path, dir.files);
      var dirnames := Prune(path, dir.subs);
      ghost var files := FilesAt(path, dir.files);
      assert files + VisitedBelow(script, true, path, dirnames[..0]) == files;
      for i := 0 to |dirnames|
        invariant Reached(script, files + VisitedBelow(script, true, path, dirnames[..i]), old(Now()), Now())
      {
        var sub := dirnames[i];
        KeptIsListed(script, path, dir.subs, i);
        ghost var before := Now();
        VisitDir(Join(path, sub.name), sub.dir);
        assert Reached(script, VisitedSub(script, true, path, sub), before, Now());
        ReachedNext(script, path, files, dirnames, i, old(Now()), before, Now());
      }
      assert dirnames[..|dirnames|] == dirnames;
      KeptSuffices(script, path, dir.subs);
    }

    /** `main` */
    method RunOnce(dir: Dir)
      requires Proper(script.rules)
      requires changed == [] && skipped == 0
      modifies this
      ensures Now() == Run(script, true, dir, old(disk))
    {
      VisitDir(script.root, dir);
    }
  }

  ghost predicate Reached(s: Script, paths: seq<string>, before: State, after: State)
    requires Proper(s.rules)
  {
    Inside(s, paths) && after == HandleAll(s, paths, before)
  }

  lemma ReachedNext(s: Script, path: string, files: seq<string>, dirnames: seq<Sub>, i: nat, a: State,
                    b: State, c: State)
    requires Proper(s.rules) && i < |dirnames|
    requires Reached(s, files + VisitedBelow(s, true, path, dirnames[..i]), a, b)
    requires Reached(s, VisitedSub(s, true, path, dirnames[i]), b, c)
    ensures Reached(s, files + VisitedBelow(s, true, path, dirnames[..i + 1]), a, c)
  {
    BelowNext(s, path, files, dirnames, i);
    HandleConcat(s, files + VisitedBelow(s, true, path, dirnames[..i]), VisitedSub(s, true, path, dirnames[i]), a);
  }

  lemma BelowNext(s: Script, path: string, files: seq<string>, dirnames: seq<Sub>, i: nat)
    requires i < |dirnames|
    ensures files + VisitedBelow(s, true, path, dirnames[..i + 1])
            == files + VisitedBelow(s, true, path, dirnames[..i]) + VisitedSub(s, true, path, dirnames[i])
  {
    BelowSnoc(s, path, dirnames[..i], dirnames[i]);
    assert dirnames[..i + 1] == dirnames[..i] + [dirnames[i]];
  }

  /** The subdirectories that survive `dirnames[:] = ...`. */
  function Kept(s: Script, path: string, subs: seq<Sub>): seq<Sub> {
    if subs == [] then []
    else
      var n := |subs| - 1;
      if s.pruned(Join(path, subs[n].name)) then Kept(s, path, subs[..n]) else Kept(s, path, subs[..n]) + [subs[n]]
  }

  lemma {:induction false} KeptIsListed(s: Script, path: string, subs: seq<Sub>, i: nat)
    requires i < |Kept(s, path, subs)|
    ensures Kept(s, path, subs)[i] in subs && !s.pruned(Join(path, Kept(s, path, subs)[i].name))
  {
    var n := |subs| - 1;
    if i < |Kept(s, path, subs[..n])| { KeptIsListed(s, path, subs[..n], i); }
  }

  lemma {:induction false} BelowSnoc(s: Script, path: string, subs: seq<Sub>, last: Sub)
    ensures VisitedBelow(s, true, path, subs + [last])
            == VisitedBelow(s, true, path, subs) + VisitedSub(s, true, path, last)
  {
    if subs == [] {
      assert subs + [last] == [last];
      assert VisitedBelow(s, true, path, [last][1..]) == [];
    } else {
      assert (subs + [last])[1..] == subs[1..] + [last];
      BelowSnoc(s, path, subs[1..], last);
    }
  }

  /** What is pruned from the list of names contributes nothing to the walk. */
  lemma {:induction false} KeptSuffices(s: Script, path: string, subs: seq<Sub>)
    ensures VisitedBelow(s, true, path, Kept(s, path, subs)) == VisitedBelow(s, true, path, subs)
  {
    if subs != [] {
      var n := |subs| - 1;
      KeptSuffices(s, path, subs[..n]);
      assert subs == subs[..n] + [subs[n]];
      BelowSnoc(s, path, subs[..n], subs[n]);
      if !s.pruned(Join(path, subs[n].name)) {
        BelowSnoc(s, path, Kept(s, path, subs[..n]), subs[n]);
      }
    }
  }

  // --- The script's own list and selection ---

  /** The script, for a way of judging word characters, folding case, coding text and following links. */
  function TheScript(isWord: char -> bool, lower: string -> string, decode: bytes -> string, encode: string -> bytes,
                     root: string, file: string -> string, locked: set<string>): Script
  {
    Script(isWord, decode, encode, REPLACEMENTS, root, file, locked,
           path => ShouldProcess(lower, root, path), path => Skipped(root, path))
  }

  /** Reading yields only characters that survive writing and reading, and the replacements use no others. */
  ghost predicate KeepsText(decode: bytes -> string, encode: string -> bytes, legible: char -> bool) {
    && (forall content, c | c in decode(content) :: legible(c))
    && (forall text | (forall c | c in text :: legible(c)) :: decode(encode(text)) == text)
    && (forall i | 0 <= i < |REPLACEMENTS| :: forall c | c in REPLACEMENTS[i].rep :: legible(c))
  }

  lemma TheScriptIsSound(isWord: char -> bool, lower: string -> string, decode: bytes -> string,
                         encode: string -> bytes, root: string, file: string -> string, locked: set<string>,
                         legible: char -> bool)
    requires LettersAreWord(isWord) && KeepsText(decode, encode, legible)
    ensures Sound(TheScript(isWord, lower, decode, encode, root, file, locked))
    ensures PrunesOnlySkipped(TheScript(isWord, lower, decode, encode, root, file, locked))
  {
    var s := TheScript(isWord, lower, decode, encode, root, file, locked);
    ListIsProper();
    ListIsDisciplined(isWord);
    forall content ensures Legible(s, Apply(isWord, REPLACEMENTS, decode(content))) {
      var text := Apply(isWord, REPLACEMENTS, decode(content));
      forall c | c in text ensures legible(c) {
        AfterChars(isWord, REPLACEMENTS, decode(content), |REPLACEMENTS|, c);
      }
    }
    PruningIsSafe(s, lower);
  }

  lemma PruningIsSafe(s: Script, lower: string -> string)
    requires forall path :: s.eligible(path) == ShouldProcess(lower, s.root, path)
    requires forall path :: s.pruned(path) == Skipped(s.root, path)
    ensures PrunesOnlySkipped(s)
  {
    forall at, path | s.pruned(at) && at + "/" <= path ensures !s.eligible(path) {
      SkippedBelow(s.root, at, path);
    }
  }

  /** A whole run of the script, on any tree: a second run rewrites nothing, and the walk that enters
      every directory would have rewritten the same files. */
  lemma RunTheorem(isWord: char -> bool, lower: string -> string, decode: bytes -> string, encode: string -> bytes,
                   root: string, file: string -> string, locked: set<string>, legible: char -> bool, dir: Dir,
                   disk: Disk)
    requires LettersAreWord(isWord) && KeepsText(decode, encode, legible) && ValidDir(dir)
    ensures var s := TheScript(isWord, lower, decode, encode, root, file, locked);
            && Proper(s.rules)
            && (var first := Run(s, true, dir, disk);
                var second := Run(s, true, dir, first.disk);
                && second == State(first.disk, [], first.skipped)
                && Run(s, false, dir, disk)
                   == State(first.disk, first.changed, first.skipped + CountPruned(s, root, dir.subs)))
  {
    var s := TheScript(isWord, lower, decode, encode, root, file, locked);
    TheScriptIsSound(isWord, lower, decode, encode, root, file, locked, legible);
    SecondRunIsIdle(s, dir, disk);
    PruningRefines(s, dir, disk);
  }
}
