/**
 Where the walk comes by: every file of the tree outside the pruned directories,
 under the path that its names make, those of a directory before those below it.
 */
module Places {
  import opened Paths
  import opened Walk

  /** A file's place in a tree: which subdirectory to enter, again and again, then which file to take. */
  type Place = seq<nat>

  predicate InTree(dir: Dir, q: Place)
    decreases |q|
  {
    && q != []
    && if |q| == 1 then q[0] < |dir.files| else q[0] < |dir.subs| && InTree(dir.subs[q[0]].dir, q[1..])
  }

  /** The names on the way, the file's own last. */
  function NamesOf(dir: Dir, q: Place): (names: seq<string>)
    requires InTree(dir, q)
    ensures |names| == |q|
    decreases |q|
  {
    if |q| == 1 then [dir.files[q[0]]] else [dir.subs[q[0]].name] + NamesOf(dir.subs[q[0]].dir, q[1..])
  }

  /** Top down: the files of a directory in the order they are listed, then what is below it, one
      subdirectory after the other. */
  predicate Before(a: Place, b: Place)
    requires a != [] && b != []
    decreases |a|
  {
    if |a| == 1 then |b| > 1 || a[0] < b[0]
    else |b| > 1 && (a[0] < b[0] || (a[0] == b[0] && Before(a[1..], b[1..])))
  }

  /** None of the directories on the way is pruned. */
  predicate Open(s: Script, path: string, names: seq<string>) {
    forall k | 0 < k < |names| :: !s.pruned(Descend(path, names[..k]))
  }

  lemma OpenNext(s: Script, path: string, names: seq<string>)
    requires |names| > 1
    ensures Open(s, path, names) <==> !s.pruned(Join(path, names[0])) && Open(s, Join(path, names[0]), names[1..])
  {
    var at := Join(path, names[0]);
    forall k | 1 < k < |names| ensures Descend(path, names[..k]) == Descend(at, names[1..][..k - 1]) {
      assert names[..k][1..] == names[1..][..k - 1];
    }
    assert names[..1] == [names[0]];
    DescendOne(path, names[0]);
    if Open(s, path, names) {
      assert !s.pruned(Descend(path, names[..1]));
      forall k | 0 < k < |names[1..]| ensures !s.pruned(Descend(at, names[1..][..k])) {
        assert !s.pruned(Descend(path, names[..k + 1]));
      }
    }
  }

  /** A place that the walk comes by. */
  predicate Reachable(s: Script, prune: bool, path: string, dir: Dir, q: Place) {
    InTree(dir, q) && (prune ==> Open(s, path, NamesOf(dir, q)))
  }

  predicate Ordered(ps: seq<Place>) {
    && (forall i | 0 <= i < |ps| :: ps[i] != [])
    && forall i, j | 0 <= i < j < |ps| :: Before(ps[i], ps[j])
  }

  /** The paths are those of the places, one by one. */
  predicate PathsOf(path: string, dir: Dir, ps: seq<Place>, paths: seq<string>) {
    && |paths| == |ps|
    && forall i | 0 <= i < |ps| :: InTree(dir, ps[i]) && paths[i] == Descend(path, NamesOf(dir, ps[i]))
  }

  /** The places of the files that a directory lists. */
  function Own(dir: Dir): (ps: seq<Place>)
    ensures |ps| == |dir.files| && forall i | 0 <= i < |ps| :: ps[i] == [i]
  {
    seq(|dir.files|, i => [i])
  }

  /** Places in a subdirectory, seen from the directory above it. */
  function Deeper(n: nat, ps: seq<Place>): (qs: seq<Place>)
    ensures |qs| == |ps| && forall i | 0 <= i < |ps| :: qs[i] == [n] + ps[i]
  {
    seq(|ps|, i requires 0 <= i < |ps| => [n] + ps[i])
  }

  lemma OrderedJoin(a: seq<Place>, b: seq<Place>)
    requires Ordered(a) && Ordered(b)
    requires forall i, j | 0 <= i < |a| && 0 <= j < |b| :: Before(a[i], b[j])
    ensures Ordered(a + b)
  {
  }

  lemma PathsJoin(path: string, dir: Dir, a: seq<Place>, b: seq<Place>, pa: seq<string>, pb: seq<string>)
    requires PathsOf(path, dir, a, pa) && PathsOf(path, dir, b, pb)
    ensures PathsOf(path, dir, a + b, pa + pb)
  {
  }

  ghost predicate Tours(s: Script, prune: bool, path: string, dir: Dir, ps: seq<Place>) {
    && Ordered(ps) && PathsOf(path, dir, ps, Visited(s, prune, path, dir))
    && forall q :: q in ps <==> Reachable(s, prune, path, dir, q)
  }

  /** The same for the subdirectories from the `n`th on. */
  ghost predicate ToursBelow(s: Script, prune: bool, path: string, dir: Dir, n: nat, ps: seq<Place>)
    requires n <= |dir.subs|
  {
    && Ordered(ps) && PathsOf(path, dir, ps, VisitedBelow(s, prune, path, dir.subs[n..]))
    && forall q :: q in ps <==> Reachable(s, prune, path, dir, q) && |q| > 1 && q[0] >= n
  }

  /** The walk comes by exactly the places outside pruned directories, in order, and knows each file by
      the path that its names make. */
  lemma {:induction false} Tour(s: Script, prune: bool, path: string, dir: Dir) returns (ps: seq<Place>)
    ensures Tours(s, prune, path, dir, ps)
    decreases dir, |dir.subs| + 1
  {
    var below := TourBelow(s, prune, path, dir, 0);
    assert dir.subs[0..] == dir.subs;
    ps := Own(dir) + below;
    OwnPaths(path, dir);
    JoinTours(s, prune, path, dir, below);
  }

  lemma OwnPaths(path: string, dir: Dir)
    ensures PathsOf(path, dir, Own(dir), FilesAt(path, dir.files))
  {
    forall i | 0 <= i < |dir.files|
      ensures InTree(dir, [i]) && Join(path, dir.files[i]) == Descend(path, NamesOf(dir, [i]))
    {
      DescendOne(path, dir.files[i]);
    }
  }

  lemma JoinTours(s: Script, prune: bool, path: string, dir: Dir, below: seq<Place>)
    requires PathsOf(path, dir, Own(dir), FilesAt(path, dir.files)) && ToursBelow(s, prune, path, dir, 0, below)
    requires dir.subs[0..] == dir.subs
    ensures Tours(s, prune, path, dir, Own(dir) + below)
  {
    var own := Own(dir);
    forall q ensures q in own + below <==> Reachable(s, prune, path, dir, q) {
      OwnReachable(s, prune, path, dir, q);
    }
    forall i, j | 0 <= i < |own| && 0 <= j < |below| ensures Before(own[i], below[j]) {
      assert below[j] in below;
    }
    OrderedJoin(own, below);
    PathsJoin(path, dir, own, below, FilesAt(path, dir.files), VisitedBelow(s, prune, path, dir.subs));
  }

  lemma OwnReachable(s: Script, prune: bool, path: string, dir: Dir, q: Place)
    ensures q in Own(dir) <==> Reachable(s, prune, path, dir, q) && |q| == 1
  {
    if |q| == 1 && InTree(dir, q) {
      assert Own(dir)[q[0]] == q;
    }
  }

  lemma {:induction false} TourBelow(s: Script, prune: bool, path: string, dir: Dir, n: nat) returns (ps: seq<Place>)
    requires n <= |dir.subs|
    ensures ToursBelow(s, prune, path, dir, n, ps)
    decreases dir, |dir.subs| - n
  {
    if n == |dir.subs| {
      ps := [];
      assert dir.subs[n..] == [];
    } else {
      var rest := TourBelow(s, prune, path, dir, n + 1);
      var sub := dir.subs[n];
      var at := Join(path, sub.name);
      assert dir.subs[n..][0] == sub && dir.subs[n..][1..] == dir.subs[n + 1..];
      if prune && s.pruned(at) {
        ps := rest;
        SkipSub(s, path, dir, n, rest);
      } else {
        var here := Tour(s, prune, at, sub.dir);
        ps := Deeper(n, here) + rest;
        EnterSub(s, prune, path, dir, n, here, rest);
      }
    }
  }

  /** Nothing in a pruned subdirectory is reachable. */
  lemma SkipSub(s: Script, path: string, dir: Dir, n: nat, rest: seq<Place>)
    requires n < |dir.subs| && s.pruned(Join(path, dir.subs[n].name)) && ToursBelow(s, true, path, dir, n + 1, rest)
    requires dir.subs[n..][0] == dir.subs[n] && dir.subs[n..][1..] == dir.subs[n + 1..]
    ensures ToursBelow(s, true, path, dir, n, rest)
  {
    forall q | InTree(dir, q) && |q| > 1 && q[0] == n ensures !Reachable(s, true, path, dir, q) {
      OpenNext(s, path, NamesOf(dir, q));
    }
    assert VisitedBelow(s, true, path, dir.subs[n..]) == VisitedBelow(s, true, path, dir.subs[n + 1..]);
  }

  lemma EnterSub(s: Script, prune: bool, path: string, dir: Dir, n: nat, here: seq<Place>, rest: seq<Place>)
    requires n < |dir.subs| && !(prune && s.pruned(Join(path, dir.subs[n].name)))
    requires Tours(s, prune, Join(path, dir.subs[n].name), dir.subs[n].dir, here)
    requires ToursBelow(s, prune, path, dir, n + 1, rest)
    requires dir.subs[n..][0] == dir.subs[n] && dir.subs[n..][1..] == dir.subs[n + 1..]
    ensures ToursBelow(s, prune, path, dir, n, Deeper(n, here) + rest)
  {
    DeeperPaths(s, prune, path, dir, n, here);
    DeeperOrdered(n, here);
    forall i, j | 0 <= i < |here| && 0 <= j < |rest| ensures Before(Deeper(n, here)[i], rest[j]) {
      assert here[i] in here && rest[j] in rest;
    }
    forall q ensures q in Deeper(n, here) + rest <==> Reachable(s, prune, path, dir, q) && |q| > 1 && q[0] >= n {
      DeeperReachable(s, prune, path, dir, n, here, q);
    }
    OrderedJoin(Deeper(n, here), rest);
    PathsJoin(path, dir, Deeper(n, here), rest, VisitedSub(s, prune, path, dir.subs[n]),
              VisitedBelow(s, prune, path, dir.subs[n + 1..]));
  }

  lemma DeeperPaths(s: Script, prune: bool, path: string, dir: Dir, n: nat, here: seq<Place>)
    requires n < |dir.subs| && !(prune && s.pruned(Join(path, dir.subs[n].name)))
    requires Tours(s, prune, Join(path, dir.subs[n].name), dir.subs[n].dir, here)
    ensures PathsOf(path, dir, Deeper(n, here), VisitedSub(s, prune, path, dir.subs[n]))
  {
    forall i | 0 <= i < |here|
      ensures InTree(dir, [n] + here[i])
      ensures Descend(path, NamesOf(dir, [n] + here[i]))
              == Descend(Join(path, dir.subs[n].name), NamesOf(dir.subs[n].dir, here[i]))
    {
      DeeperNames(path, dir, n, here[i]);
    }
  }

  lemma DeeperNames(path: string, dir: Dir, n: nat, q: Place)
    requires n < |dir.subs| && InTree(dir.subs[n].dir, q)
    ensures InTree(dir, [n] + q) && NamesOf(dir, [n] + q) == [dir.subs[n].name] + NamesOf(dir.subs[n].dir, q)
    ensures Descend(path, NamesOf(dir, [n] + q)) == Descend(Join(path, dir.subs[n].name), NamesOf(dir.subs[n].dir, q))
  {
    assert ([n] + q)[1..] == q;
    var names := NamesOf(dir.subs[n].dir, q);
    assert ([dir.subs[n].name] + names)[1..] == names;
  }

  lemma DeeperOrdered(n: nat, here: seq<Place>)
    requires Ordered(here)
    ensures Ordered(Deeper(n, here))
  {
    forall i, j | 0 <= i < j < |here| ensures Before([n] + here[i], [n] + here[j]) {
      assert ([n] + here[i])[1..] == here[i] && ([n] + here[j])[1..] == here[j];
    }
  }

  lemma DeeperReachable(s: Script, prune: bool, path: string, dir: Dir, n: nat, here: seq<Place>, q: Place)
    requires n < |dir.subs| && !(prune && s.pruned(Join(path, dir.subs[n].name)))
    requires forall p :: p in here <==> Reachable(s, prune, Join(path, dir.subs[n].name), dir.subs[n].dir, p)
    ensures q in Deeper(n, here) <==> Reachable(s, prune, path, dir, q) && |q| > 1 && q[0] == n
  {
    if |q| > 1 && q[0] == n {
      assert q == [n] + q[1..];
      if InTree(dir, q) { OpenNext(s, path, NamesOf(dir, q)); }
      if q[1..] in here {
        var i :| 0 <= i < |here| && here[i] == q[1..];
        assert Deeper(n, here)[i] == q;
      }
    }
    if q in Deeper(n, here) {
      var i :| 0 <= i < |here| && Deeper(n, here)[i] == q;
      assert here[i] in here && q[1..] == here[i];
    }
  }

  /** Said of the paths: the walk comes by exactly those that lead through listed subdirectories, none of
      them pruned, to a listed file. */
  lemma VisitedIff(s: Script, prune: bool, path: string, dir: Dir, p: string)
    ensures p in Visited(s, prune, path, dir)
            <==> exists q :: Reachable(s, prune, path, dir, q) && p == Descend(path, NamesOf(dir, q))
  {
    var ps := Tour(s, prune, path, dir);
    if p in Visited(s, prune, path, dir) {
      var i :| 0 <= i < |ps| && Visited(s, prune, path, dir)[i] == p;
      assert ps[i] in ps;
    }
    forall q | Reachable(s, prune, path, dir, q)
      ensures Descend(path, NamesOf(dir, q)) in Visited(s, prune, path, dir)
    {
      var i :| 0 <= i < |ps| && ps[i] == q;
    }
  }

  /** A directory's own files come before all that is below it. */
  lemma {:induction false} FilesFirst(d: Place, i: nat, below: Place)
    requires |below| > 1
    ensures Before(d + [i], d + below)
  {
    if d == [] {
      assert d + [i] == [i] && d + below == below;
    } else {
      FilesFirst(d[1..], i, below);
      assert (d + [i])[1..] == d[1..] + [i] && (d + below)[1..] == d[1..] + below;
    }
  }

  lemma {:induction false} BeforeIsStrict(a: Place, b: Place)
    requires a != [] && b != [] && Before(a, b)
    ensures !Before(b, a) && a != b
    decreases |a|
  {
    if |a| > 1 && a[0] == b[0] { BeforeIsStrict(a[1..], b[1..]); }
  }

  /** In an ordered sequence, what comes before a place is what stands at a smaller index. */
  lemma OrderIsIndex(ps: seq<Place>, j: nat, k: nat)
    requires Ordered(ps) && j < |ps| && k < |ps|
    ensures Before(ps[j], ps[k]) <==> j < k
  {
    if Before(ps[j], ps[k]) { BeforeIsStrict(ps[j], ps[k]); }
  }

  /** The places among the first `n` whose index is marked. */
  function Marked(ps: seq<Place>, mark: nat -> bool, n: nat): (qs: seq<Place>)
    requires n <= |ps|
    ensures forall q :: q in qs <==> exists i | 0 <= i < n :: mark(i) && ps[i] == q
  {
    if n == 0 then []
    else Marked(ps, mark, n - 1) + if mark(n - 1) then [ps[n - 1]] else []
  }

  lemma {:induction false} MarkedOrdered(ps: seq<Place>, mark: nat -> bool, n: nat)
    requires Ordered(ps) && n <= |ps|
    ensures Ordered(Marked(ps, mark, n))
  {
    if n > 0 {
      MarkedOrdered(ps, mark, n - 1);
      var before := Marked(ps, mark, n - 1);
      forall i | 0 <= i < |before| ensures Before(before[i], ps[n - 1]) {
        assert before[i] in before;
      }
    }
  }

  lemma MarkedIff(ps: seq<Place>, mark: nat -> bool, q: Place, marked: bool)
    requires forall k | 0 <= k < |ps| && ps[k] == q :: mark(k) == marked
    ensures q in Marked(ps, mark, |ps|) <==> q in ps && marked
  {
  }
}
