/**
 A whole run of the script over a directory tree, said of the tree, the texts and
 the script's own strings.
 */
module ScriptRun {
  import opened Bytes
  import opened WholeWord
  import opened Chain
  import opened Paths
  import opened Rules
  import opened Rebrand
  import opened Walk
  import opened Places
  import opened RebrandRun

  /** The names below the root lead to a text that is not skipped. */
  ghost predicate Selected(lower: string -> string, names: seq<string>) {
    names != [] && !SkipNames(names) && TextName(lower, names[|names| - 1])
  }

  /** Some selected path of the tree leads to the file. */
  ghost predicate LeadsTo(lower: string -> string, root: string, file: string -> string, dir: Dir, f: string) {
    exists q :: InTree(dir, q) && Selected(lower, NamesOf(dir, q)) && file(Descend(root, NamesOf(dir, q))) == f
  }

  /** The file's bytes are to be rewritten: no NUL near the start, and a text with something to rewrite. */
  ghost predicate ToRewrite(isWord: char -> bool, decode: bytes -> string, content: bytes) {
    && (forall i | 0 <= i < |content| && i < 8192 :: content[i] != 0)
    && Branded(isWord, decode(content))
  }

  /** The selection of files is that of the script. */
  ghost predicate SelectsAs(s: Script, lower: string -> string) {
    && lower("") == ""
    && (forall path :: s.eligible(path) == ShouldProcess(lower, s.root, path))
    && (forall path :: s.pruned(path) == Skipped(s.root, path))
  }

  lemma {:induction false} NamesAreValid(dir: Dir, q: Place)
    requires ValidDir(dir) && InTree(dir, q)
    ensures ValidNames(NamesOf(dir, q))
    decreases |q|
  {
    if |q| > 1 { NamesAreValid(dir.subs[q[0]].dir, q[1..]); }
  }

  lemma SkipNamesOfMore(names: seq<string>, k: nat)
    requires k <= |names| && SkipNames(names[..k])
    ensures SkipNames(names)
  {
  }

  /** The script's choice of a place: what it processes is exactly what is selected, and the walk comes
      by all of it. */
  lemma ChoiceIff(s: Script, lower: string -> string, dir: Dir, q: Place)
    requires SelectsAs(s, lower)
    requires ValidDir(dir) && InTree(dir, q)
    ensures s.eligible(Descend(s.root, NamesOf(dir, q))) <==> Selected(lower, NamesOf(dir, q))
    ensures Selected(lower, NamesOf(dir, q)) ==> Reachable(s, true, s.root, dir, q)
  {
    var names := NamesOf(dir, q);
    NamesAreValid(dir, q);
    ShouldProcessIff(lower, s.root, names);
    if !SkipNames(names) { UnskippedIsOpen(s, lower, names); }
  }

  lemma UnskippedIsOpen(s: Script, lower: string -> string, names: seq<string>)
    requires SelectsAs(s, lower) && ValidNames(names) && !SkipNames(names)
    ensures Open(s, s.root, names)
  {
    forall k | 0 < k < |names| ensures !s.pruned(Descend(s.root, names[..k])) {
      SkippedIff(s.root, names[..k]);
      if SkipNames(names[..k]) { SkipNamesOfMore(names, k); }
    }
  }

  lemma TouchedIff(s: Script, lower: string -> string, dir: Dir, f: string)
    requires SelectsAs(s, lower)
    requires ValidDir(dir)
    ensures Touched(s, Visited(s, true, s.root, dir), f) <==> LeadsTo(lower, s.root, s.file, dir, f)
  {
    var paths := Visited(s, true, s.root, dir);
    var ps := Tour(s, true, s.root, dir);
    if Touched(s, paths, f) {
      var i :| 0 <= i < |paths| && s.eligible(paths[i]) && s.file(paths[i]) == f;
      ChoiceIff(s, lower, dir, ps[i]);
    }
    if LeadsTo(lower, s.root, s.file, dir, f) {
      var q :| InTree(dir, q) && Selected(lower, NamesOf(dir, q)) && s.file(Descend(s.root, NamesOf(dir, q))) == f;
      ChoiceIff(s, lower, dir, q);
      var i :| 0 <= i < |ps| && ps[i] == q;
    }
  }

  /** What a run leaves on the disk: the rebranded text in each file that a selected path leads to, that
      can be written and has something to rewrite; everything else as it was. */
  lemma ScriptEffect(isWord: char -> bool, lower: string -> string, decode: bytes -> string, encode: string -> bytes,
                     root: string, file: string -> string, locked: set<string>, legible: char -> bool, dir: Dir,
                     disk: Disk, f: string)
    requires LettersAreWord(isWord) && KeepsText(decode, encode, legible) && lower("") == ""
    requires ValidDir(dir) && f in disk
    ensures Proper(TheScript(isWord, lower, decode, encode, root, file, locked).rules)
    ensures var after := Run(TheScript(isWord, lower, decode, encode, root, file, locked), true, dir, disk).disk;
            && after.Keys == disk.Keys
            && after[f] == if LeadsTo(lower, root, file, dir, f) && f !in locked && ToRewrite(isWord, decode, disk[f])
                           then encode(Rebranded(isWord, decode(disk[f])))
                           else disk[f]
  {
    var s := TheScript(isWord, lower, decode, encode, root, file, locked);
    TheScriptIsSound(isWord, lower, decode, encode, root, file, locked, legible);
    VisitedInside(s, true, root, dir);
    TouchedIff(s, lower, dir, f);
    DiskAfter(s, Visited(s, true, root, dir), State(disk, [], 0), f);
    DirtyIff(s, disk, f);
    RebrandedIsApply(isWord, decode(disk[f]));
  }

  lemma DirtyIff(s: Script, disk: Disk, f: string)
    requires LettersAreWord(s.isWord) && Proper(s.rules) && s.rules == REPLACEMENTS
    ensures Dirty(s, disk, f) <==> f in disk && f !in s.locked && ToRewrite(s.isWord, s.decode, disk[f])
  {
    if f in disk {
      var content := disk[f];
      RebrandedIsApply(s.isWord, s.decode(content));
      ChangedIffBranded(s.isWord, s.decode(content));
      assert IsBinary(content) == exists i | 0 <= i < |content| && i < 8192 :: content[i] == 0;
    }
  }

  /** Some selected place before `q` leads to the file. */
  ghost predicate EarlierTo(lower: string -> string, root: string, file: string -> string, dir: Dir, q: Place,
                            f: string)
    requires q != []
  {
    exists b :: InTree(dir, b) && Selected(lower, NamesOf(dir, b)) && Before(b, q)
                && file(Descend(root, NamesOf(dir, b))) == f
  }

  /** The place is selected, its file is to be rewritten, and no selected place before it leads there. */
  ghost predicate Reports(isWord: char -> bool, lower: string -> string, decode: bytes -> string, root: string,
                          file: string -> string, locked: set<string>, dir: Dir, disk: Disk, q: Place)
  {
    && InTree(dir, q) && Selected(lower, NamesOf(dir, q))
    && (var f := file(Descend(root, NamesOf(dir, q)));
        && f in disk && f !in locked && ToRewrite(isWord, decode, disk[f])
        && !EarlierTo(lower, root, file, dir, q, f))
  }

  lemma TouchedIsEarlier(s: Script, lower: string -> string, dir: Dir, ps: seq<Place>, k: nat, f: string)
    requires SelectsAs(s, lower) && ValidDir(dir) && Tours(s, true, s.root, dir, ps) && k < |ps|
    requires Touched(s, Visited(s, true, s.root, dir)[..k], f)
    ensures EarlierTo(lower, s.root, s.file, dir, ps[k], f)
  {
    var paths := Visited(s, true, s.root, dir);
    var j :| 0 <= j < k && s.eligible(paths[..k][j]) && s.file(paths[..k][j]) == f;
    assert paths[..k][j] == paths[j];
    ChoiceIff(s, lower, dir, ps[j]);
    OrderIsIndex(ps, j, k);
  }

  lemma EarlierIsTouched(s: Script, lower: string -> string, dir: Dir, ps: seq<Place>, k: nat, f: string)
    requires SelectsAs(s, lower) && ValidDir(dir) && Tours(s, true, s.root, dir, ps) && k < |ps|
    requires EarlierTo(lower, s.root, s.file, dir, ps[k], f)
    ensures Touched(s, Visited(s, true, s.root, dir)[..k], f)
  {
    var paths := Visited(s, true, s.root, dir);
    var b :| InTree(dir, b) && Selected(lower, NamesOf(dir, b)) && Before(b, ps[k])
             && s.file(Descend(s.root, NamesOf(dir, b))) == f;
    ChoiceIff(s, lower, dir, b);
    var j :| 0 <= j < |ps| && ps[j] == b;
    OrderIsIndex(ps, j, k);
    assert paths[..k][j] == paths[j];
  }

  lemma RewritesIff(s: Script, lower: string -> string, dir: Dir, disk: Disk, ps: seq<Place>, k: nat)
    requires LettersAreWord(s.isWord) && Proper(s.rules) && s.rules == REPLACEMENTS
    requires SelectsAs(s, lower)
    requires ValidDir(dir) && Tours(s, true, s.root, dir, ps) && k < |ps|
    ensures Rewrites(s, Visited(s, true, s.root, dir), disk, k)
            <==> Reports(s.isWord, lower, s.decode, s.root, s.file, s.locked, dir, disk, ps[k])
  {
    var f := s.file(Visited(s, true, s.root, dir)[k]);
    ChoiceIff(s, lower, dir, ps[k]);
    DirtyIff(s, disk, f);
    if Touched(s, Visited(s, true, s.root, dir)[..k], f) {
      TouchedIsEarlier(s, lower, dir, ps, k, f);
    } else if EarlierTo(lower, s.root, s.file, dir, ps[k], f) {
      EarlierIsTouched(s, lower, dir, ps, k, f);
    }
  }

  /** The report names the places, one by one. */
  predicate ReportsNames(dir: Dir, qs: seq<Place>, report: seq<string>) {
    && |report| == |qs|
    && forall i | 0 <= i < |qs| :: InTree(dir, qs[i]) && report[i] == Slashed(NamesOf(dir, qs[i]))
  }

  /** The reported paths are those of the marked places. */
  lemma {:induction false} ReportedPaths(s: Script, dir: Dir, disk: Disk, ps: seq<Place>, paths: seq<string>,
                                         mark: nat -> bool, n: nat)
    requires Proper(s.rules) && Inside(s, paths) && ValidDir(dir) && PathsOf(s.root, dir, ps, paths) && n <= |ps|
    requires forall k | 0 <= k < |ps| :: mark(k) == Rewrites(s, paths, disk, k)
    ensures var report, qs := Reported(s, paths, disk, n), Marked(ps, mark, n);
            ReportsNames(dir, qs, report)
  {
    if n > 0 {
      ReportedPaths(s, dir, disk, ps, paths, mark, n - 1);
      RelativeNames(s.root, dir, ps[n - 1]);
      ReportGrows(dir, Marked(ps, mark, n - 1), Reported(s, paths, disk, n - 1), mark(n - 1), ps[n - 1],
                  Relative(s.root, paths[n - 1]));
    }
  }

  lemma ReportGrows(dir: Dir, qs: seq<Place>, report: seq<string>, more: bool, q: Place, name: string)
    requires ReportsNames(dir, qs, report) && InTree(dir, q) && name == Slashed(NamesOf(dir, q))
    ensures ReportsNames(dir, qs + if more then [q] else [], report + if more then [name] else [])
  {
  }

  lemma RelativeNames(root: string, dir: Dir, q: Place)
    requires ValidDir(dir) && InTree(dir, q)
    ensures var path := Descend(root, NamesOf(dir, q));
            Base(root) <= path && Relative(root, path) == Slashed(NamesOf(dir, q))
  {
    NamesAreValid(dir, q);
    DescendIs(root, NamesOf(dir, q));
  }

  /** What a run reports: the names that lead to these places, in the order of the walk. */
  lemma ScriptReport(isWord: char -> bool, lower: string -> string, decode: bytes -> string, encode: string -> bytes,
                     root: string, file: string -> string, locked: set<string>, legible: char -> bool, dir: Dir,
                     disk: Disk)
    returns (qs: seq<Place>)
    requires LettersAreWord(isWord) && KeepsText(decode, encode, legible) && lower("") == "" && ValidDir(dir)
    ensures Proper(TheScript(isWord, lower, decode, encode, root, file, locked).rules)
    ensures Ordered(qs)
    ensures forall q :: q in qs <==> Reports(isWord, lower, decode, root, file, locked, dir, disk, q)
    ensures var report := Run(TheScript(isWord, lower, decode, encode, root, file, locked), true, dir, disk).changed;
            ReportsNames(dir, qs, report)
  {
    var s := TheScript(isWord, lower, decode, encode, root, file, locked);
    TheScriptIsSound(isWord, lower, decode, encode, root, file, locked, legible);
    var paths := Visited(s, true, root, dir);
    var ps := Tour(s, true, root, dir);
    ReportIsExact(s, dir, disk);
    qs := ReportedPlaces(s, lower, dir, disk, ps);
  }

  lemma ReportedPlaces(s: Script, lower: string -> string, dir: Dir, disk: Disk, ps: seq<Place>)
    returns (qs: seq<Place>)
    requires LettersAreWord(s.isWord) && Proper(s.rules) && s.rules == REPLACEMENTS
    requires SelectsAs(s, lower)
    requires ValidDir(dir) && Tours(s, true, s.root, dir, ps)
    requires Inside(s, Visited(s, true, s.root, dir))
    ensures Ordered(qs)
    ensures forall q :: q in qs <==> Reports(s.isWord, lower, s.decode, s.root, s.file, s.locked, dir, disk, q)
    ensures var paths := Visited(s, true, s.root, dir);
            var report := Reported(s, paths, disk, |paths|);
            ReportsNames(dir, qs, report)
  {
    var paths := Visited(s, true, s.root, dir);
    var mark := (k: nat) => k < |paths| && Rewrites(s, paths, disk, k);
    qs := Marked(ps, mark, |ps|);
    MarkedOrdered(ps, mark, |ps|);
    ReportedPaths(s, dir, disk, ps, paths, mark, |ps|);
    forall q ensures q in qs <==> Reports(s.isWord, lower, s.decode, s.root, s.file, s.locked, dir, disk, q) {
      forall k | 0 <= k < |ps|
        ensures mark(k) <==> Reports(s.isWord, lower, s.decode, s.root, s.file, s.locked, dir, disk, ps[k])
      {
        RewritesIff(s, lower, dir, disk, ps, k);
      }
      if Reports(s.isWord, lower, s.decode, s.root, s.file, s.locked, dir, disk, q) {
        ChoiceIff(s, lower, dir, q);
        assert q in ps;
      }
    }
  }

  // --- The count of skipped files ---

  /** None of the directories on the way is skipped. */
  predicate Entered(names: seq<string>) {
    forall k | 0 < k < |names| :: !SkipNames(names[..k])
  }

  lemma EnteredIff(s: Script, lower: string -> string, dir: Dir, q: Place)
    requires SelectsAs(s, lower) && ValidDir(dir) && InTree(dir, q)
    ensures Reachable(s, true, s.root, dir, q) <==> Entered(NamesOf(dir, q))
  {
    var names := NamesOf(dir, q);
    NamesAreValid(dir, q);
    forall k | 0 < k < |names| ensures s.pruned(Descend(s.root, names[..k])) == SkipNames(names[..k]) {
      SkippedIff(s.root, names[..k]);
    }
    if Entered(names) {
      assert Open(s, s.root, names);
    } else {
      var k :| 0 < k < |names| && SkipNames(names[..k]);
      assert s.pruned(Descend(s.root, names[..k]));
    }
  }

  lemma {:induction false} UnchosenCount(s: Script, ps: seq<Place>, paths: seq<string>, mark: nat -> bool, n: nat)
    requires |ps| == |paths| && n <= |ps|
    requires forall k | 0 <= k < |ps| :: mark(k) == !s.eligible(paths[k])
    ensures |Marked(ps, mark, n)| == n - |Chosen(s, paths[..n])|
  {
    if n > 0 {
      UnchosenCount(s, ps, paths, mark, n - 1);
      ChosenConcat(s, paths[..n - 1], [paths[n - 1]]);
      assert paths[..n] == paths[..n - 1] + [paths[n - 1]];
      assert Chosen(s, [paths[n - 1]][1..]) == [];
    }
  }

  /** What a run counts as skipped: the files outside skipped directories that are not selected. */
  lemma ScriptSkips(isWord: char -> bool, lower: string -> string, decode: bytes -> string, encode: string -> bytes,
                    root: string, file: string -> string, locked: set<string>, dir: Dir, disk: Disk)
    returns (qs: seq<Place>)
    requires lower("") == "" && ValidDir(dir)
    ensures Proper(TheScript(isWord, lower, decode, encode, root, file, locked).rules)
    ensures Ordered(qs)
    ensures forall q :: q in qs <==>
                    InTree(dir, q) && Entered(NamesOf(dir, q)) && !Selected(lower, NamesOf(dir, q))
    ensures Run(TheScript(isWord, lower, decode, encode, root, file, locked), true, dir, disk).skipped == |qs|
  {
    ListIsProper();
    var s := TheScript(isWord, lower, decode, encode, root, file, locked);
    var paths := Visited(s, true, root, dir);
    var ps := Tour(s, true, root, dir);
    VisitedInside(s, true, root, dir);
    OnlyChosenMatter(s, paths, State(disk, [], 0));
    qs := UnchosenPlaces(s, lower, dir, ps);
  }

  lemma UnchosenPlaces(s: Script, lower: string -> string, dir: Dir, ps: seq<Place>) returns (qs: seq<Place>)
    requires SelectsAs(s, lower) && ValidDir(dir) && Tours(s, true, s.root, dir, ps)
    ensures Ordered(qs)
    ensures forall q :: q in qs <==>
                    InTree(dir, q) && Entered(NamesOf(dir, q)) && !Selected(lower, NamesOf(dir, q))
    ensures var paths := Visited(s, true, s.root, dir);
            |qs| == |paths| - |Chosen(s, paths)|
  {
    var paths := Visited(s, true, s.root, dir);
    var mark := (k: nat) => k < |paths| && !s.eligible(paths[k]);
    qs := Marked(ps, mark, |ps|);
    MarkedOrdered(ps, mark, |ps|);
    UnchosenCount(s, ps, paths, mark, |ps|);
    assert paths[..|paths|] == paths;
    forall q ensures q in qs <==> InTree(dir, q) && Entered(NamesOf(dir, q)) && !Selected(lower, NamesOf(dir, q)) {
      if InTree(dir, q) {
        EnteredIff(s, lower, dir, q);
        UnchosenIs(s, lower, dir, ps, paths, q);
        MarkedIff(ps, mark, q, !Selected(lower, NamesOf(dir, q)));
      }
    }
  }

  lemma UnchosenIs(s: Script, lower: string -> string, dir: Dir, ps: seq<Place>, paths: seq<string>, q: Place)
    requires SelectsAs(s, lower) && ValidDir(dir) && PathsOf(s.root, dir, ps, paths) && InTree(dir, q)
    ensures forall k | 0 <= k < |ps| && ps[k] == q :: s.eligible(paths[k]) == Selected(lower, NamesOf(dir, q))
  {
    ChoiceIff(s, lower, dir, q);
  }
}
