/**
 Global substitution in a text: Python's `str.replace`, and what can be said of
 it for arbitrary strings.
 */
module Substitution {

  /** `s` starts at index `k` of `t`. */
  predicate OccursAt(t: string, s: string, k: nat) {
    k <= |t| && s <= t[k..]
  }

  /** Python's `s in t`. */
  predicate Contains(t: string, s: string) {
    exists k | 0 <= k <= |t| :: OccursAt(t, s, k)
  }

  predicate IsV(c: char) {
    c == 'v' || c == 'V'
  }

  predicate VFree(s: string) {
    forall k | 0 <= k < |s| :: !IsV(s[k])
  }

  // --- str.replace ---

  /** Python's `t.replace(pat, rep)`: a leftmost, non-overlapping scan. */
  function Replace(t: string, pat: string, rep: string): string
    requires pat != ""
  {
    if t == "" then ""
    else if pat <= t then rep + Replace(t[|pat|..], pat, rep)
    else [t[0]] + Replace(t[1..], pat, rep)
  }

  /** `sep.join(parts)` */
  function Join(parts: seq<string>, sep: string): string {
    if parts == [] then ""
    else if |parts| == 1 then parts[0]
    else parts[0] + sep + Join(parts[1..], sep)
  }

  /** In `gap` followed by a match no match starts earlier, even one reaching into the match. */
  predicate EndsAtFirstMatch(gap: string, pat: string) {
    forall k | 0 <= k < |gap| :: !OccursAt(gap + pat, pat, k)
  }

  /** The gaps a leftmost, non-overlapping scan leaves around the matches. */
  predicate LeftmostGaps(gaps: seq<string>, pat: string) {
    && gaps != []
    && !Contains(gaps[|gaps| - 1], pat)
    && forall i | 0 <= i < |gaps| - 1 :: EndsAtFirstMatch(gaps[i], pat)
  }

  function Split(t: string, pat: string): (gaps: seq<string>)
    requires pat != ""
    ensures gaps != []
  {
    if t == "" then [""]
    else if pat <= t then [""] + Split(t[|pat|..], pat)
    else
      var gaps := Split(t[1..], pat);
      [[t[0]] + gaps[0]] + gaps[1..]
  }

  lemma OccursShift(a: string, b: string, s: string, k: nat)
    requires k >= |a|
    ensures OccursAt(a + b, s, k) <==> OccursAt(b, s, k - |a|)
  {
    if k <= |a + b| {
      assert (a + b)[k..] == b[k - |a|..];
    }
  }

  lemma ContainsIntro(t: string, s: string, k: nat)
    requires OccursAt(t, s, k)
    ensures Contains(t, s)
  {
  }

  /** What contains `s` in a part contains it as a whole. */
  lemma ContainsMono(a: string, t: string, b: string, s: string)
    requires Contains(t, s)
    ensures Contains(a + t + b, s)
  {
    var k :| 0 <= k <= |t| && OccursAt(t, s, k);
    assert (a + t + b)[|a| + k..] == t[k..] + b;
    ContainsIntro(a + t + b, s, |a| + k);
  }

  lemma ContainsTail(t: string, s: string, k: nat)
    requires k <= |t| && Contains(t[k..], s)
    ensures Contains(t, s)
  {
    ContainsMono(t[..k], t[k..], "", s);
    assert t[..k] + t[k..] + "" == t;
  }

  /** Splitting loses nothing: joining the gaps with the search string gives the text back. */
  lemma {:induction false} SplitJoin(t: string, pat: string)
    requires pat != ""
    ensures Join(Split(t, pat), pat) == t
  {
    if t == "" {
    } else if pat <= t {
      SplitJoin(t[|pat|..], pat);
      JoinEmptyCons(Split(t[|pat|..], pat), pat);
      assert t == pat + t[|pat|..];
    } else {
      SplitJoin(t[1..], pat);
      JoinCons([t[0]], Split(t[1..], pat), pat);
    }
  }

  lemma JoinEmptyCons(gaps: seq<string>, sep: string)
    requires gaps != []
    ensures Join([""] + gaps, sep) == sep + Join(gaps, sep)
  {
    assert ([""] + gaps)[1..] == gaps;
  }

  lemma JoinCons(c: string, gaps: seq<string>, sep: string)
    requires gaps != []
    ensures Join([c + gaps[0]] + gaps[1..], sep) == c + Join(gaps, sep)
  {
    var longer := [c + gaps[0]] + gaps[1..];
    assert longer[1..] == gaps[1..];
    if |gaps| > 1 {
      assert Join(longer, sep) == c + gaps[0] + sep + Join(gaps[1..], sep);
    }
  }

  lemma {:induction false} ReplaceGap(gap: string, rest: string, pat: string, rep: string)
    requires pat != "" && EndsAtFirstMatch(gap, pat)
    ensures Replace(gap + pat + rest, pat, rep) == gap + rep + Replace(rest, pat, rep)
  {
    var t := gap + pat + rest;
    if gap == "" {
      assert t[|pat|..] == rest;
    } else {
      assert !OccursAt(gap + pat, pat, 0);
      var tail := gap[1..];
      assert t[1..] == tail + pat + rest;
      FirstMatchTail(gap, pat);
      ReplaceGap(tail, rest, pat, rep);
    }
  }

  lemma FirstMatchTail(gap: string, pat: string)
    requires EndsAtFirstMatch(gap, pat) && gap != ""
    ensures EndsAtFirstMatch(gap[1..], pat)
  {
    forall k | 0 <= k < |gap[1..]| ensures !OccursAt(gap[1..] + pat, pat, k) {
      assert [gap[0]] + (gap[1..] + pat) == gap + pat;
      OccursShift([gap[0]], gap[1..] + pat, pat, k + 1);
      assert !OccursAt(gap + pat, pat, k + 1);
    }
  }

  /** The leftmost decomposition of a text fixes the outcome of `Replace`: any gaps that join
      back to the text and never hide an earlier match are the gaps that are kept. */
  lemma {:induction false} ReplaceReference(gaps: seq<string>, pat: string, rep: string)
    requires pat != "" && LeftmostGaps(gaps, pat)
    ensures Replace(Join(gaps, pat), pat, rep) == Join(gaps, rep)
  {
    if |gaps| == 1 {
      ReplaceAbsent(gaps[0], pat, rep);
    } else {
      assert forall i | 0 <= i < |gaps[1..]| :: gaps[1..][i] == gaps[i + 1];
      ReplaceReference(gaps[1..], pat, rep);
      ReplaceGap(gaps[0], Join(gaps[1..], pat), pat, rep);
    }
  }

  /** ... and `Split` finds those gaps. */
  lemma {:induction false} SplitIsLeftmost(t: string, pat: string)
    requires pat != ""
    ensures LeftmostGaps(Split(t, pat), pat)
  {
    if t == "" {
    } else if pat <= t {
      SplitIsLeftmost(t[|pat|..], pat);
    } else {
      SplitIsLeftmost(t[1..], pat);
      SplitJoin(t[1..], pat);
      LongerFirstGap(t[0], Split(t[1..], pat), pat);
    }
  }

  lemma LongerFirstGap(c: char, gaps: seq<string>, pat: string)
    requires pat != "" && LeftmostGaps(gaps, pat) && !(pat <= [c] + Join(gaps, pat))
    ensures LeftmostGaps([[c] + gaps[0]] + gaps[1..], pat)
  {
    if |gaps| == 1 {
      NoMatchCons(c, gaps[0], pat);
    } else {
      var rest := Join(gaps[1..], pat);
      assert [c] + Join(gaps, pat) == [c] + gaps[0] + pat + rest;
      FirstMatchCons(c, gaps[0], rest, pat);
      SameOtherGaps([c] + gaps[0], gaps, pat);
    }
  }

  lemma SameOtherGaps(first: string, gaps: seq<string>, pat: string)
    requires LeftmostGaps(gaps, pat) && |gaps| > 1 && EndsAtFirstMatch(first, pat)
    ensures LeftmostGaps([first] + gaps[1..], pat)
  {
    var longer := [first] + gaps[1..];
    assert forall i | 0 < i < |longer| :: longer[i] == gaps[i];
  }

  lemma NoMatchCons(c: char, gap: string, pat: string)
    requires !Contains(gap, pat) && !(pat <= [c] + gap)
    ensures !Contains([c] + gap, pat)
  {
    forall k | 0 <= k <= |[c] + gap| ensures !OccursAt([c] + gap, pat, k) {
      if k > 0 { OccursShift([c], gap, pat, k); }
    }
  }

  lemma FirstMatchCons(c: char, gap: string, rest: string, pat: string)
    requires EndsAtFirstMatch(gap, pat) && !(pat <= [c] + gap + pat + rest)
    ensures EndsAtFirstMatch([c] + gap, pat)
  {
    forall k | 0 <= k < |[c] + gap| ensures !OccursAt([c] + gap + pat, pat, k) {
      assert [c] + gap + pat + rest == ([c] + gap + pat) + rest;
      if k > 0 {
        assert [c] + (gap + pat) == [c] + gap + pat;
        OccursShift([c], gap + pat, pat, k);
      }
    }
  }

  /** `str.replace` is `rep.join(t.split(pat))`. */
  lemma ReplaceIsSplitThenJoin(t: string, pat: string, rep: string)
    requires pat != ""
    ensures Replace(t, pat, rep) == Join(Split(t, pat), rep)
  {
    SplitIsLeftmost(t, pat);
    SplitJoin(t, pat);
    ReplaceReference(Split(t, pat), pat, rep);
  }

  /** A text without the search string is left alone. */
  lemma {:induction false} ReplaceAbsent(t: string, pat: string, rep: string)
    requires pat != "" && !Contains(t, pat)
    ensures Replace(t, pat, rep) == t
  {
    if t != "" {
      assert !OccursAt(t, pat, 0);
      if Contains(t[1..], pat) { ContainsTail(t, pat, 1); }
      ReplaceAbsent(t[1..], pat, rep);
    }
  }

  // --- What a substitution cannot bring back ---

  /** Up to and excluding the `v` at index `p` of the replacement, the replacement copies the search string. */
  predicate Shields(pat: string, rep: string, p: nat) {
    p < |pat| && p < |rep| && rep[..p] == pat[..p] && IsV(rep[p])
  }

  /** The strings disagree where `w` starts `d` characters into `pat`. */
  predicate Clash(pat: string, w: string, d: int) {
    exists i | 0 <= i < |w| && 0 <= i + d < |pat| :: w[i] != pat[i + d]
  }

  /** Past that `v`, `s` cannot start inside the replacement: the two disagree at once or, at the
      very last character, the search string ends in that character as well. */
  predicate Inert(pat: string, rep: string, p: nat, s: string) {
    && pat != "" && s != ""
    && (forall k | p < k < |rep| - 1 :: Clash(rep, s, k))
    && (rep != "" && rep[|rep| - 1] == s[0] ==> pat[|pat| - 1] == s[0] && s != pat)
  }

  /** A v-free beginning of the output is a beginning of the input. */
  lemma {:induction false} ReplaceKeepsVFreePrefix(t: string, pat: string, rep: string, p: nat, w: string)
    requires Shields(pat, rep, p) && VFree(w) && w <= Replace(t, pat, rep)
    ensures w <= t
  {
    if t == "" || w == "" {
    } else if pat <= t {
      var r := Replace(t, pat, rep);
      assert r[p] == rep[p];
      assert forall i | 0 <= i < |w| :: w[i] == r[i];
      assert w == rep[..|w|] == pat[..|w|];
    } else {
      assert w[1..] <= Replace(t[1..], pat, rep);
      ReplaceKeepsVFreePrefix(t[1..], pat, rep, p, w[1..]);
    }
  }

  /** No place in the output where a v-free string `s` starts, if there is none in the input
      (or if `s` is the search string itself), even across a seam. */
  lemma {:induction false} NotRebornAt(t: string, pat: string, rep: string, p: nat, s: string, k: nat)
    requires Shields(pat, rep, p) && Inert(pat, rep, p, s) && VFree(s)
    requires s == pat || !Contains(t, s)
    ensures !OccursAt(Replace(t, pat, rep), s, k)
    decreases |t|
  {
    if OccursAt(Replace(t, pat, rep), s, k) {
      if t == "" {
      } else if pat <= t {
        var t' := t[|pat|..];
        var r' := Replace(t', pat, rep);
        assert pat + t' == t;
        if k >= |rep| {
          OccursShift(rep, r', s, k);
          if s != pat && Contains(t', s) { ContainsTail(t, s, |pat|); }
          NotRebornAt(t', pat, rep, p, s, k - |rep|);
        } else {
          NotInsideReplacement(t', pat, rep, p, s, k);
        }
      } else if k == 0 {
        ReplaceKeepsVFreePrefix(t, pat, rep, p, s);
        ContainsIntro(t, s, 0);
      } else {
        OccursShift([t[0]], Replace(t[1..], pat, rep), s, k);
        if s != pat && Contains(t[1..], s) { ContainsTail(t, s, 1); }
        NotRebornAt(t[1..], pat, rep, p, s, k - 1);
      }
    }
  }

  lemma NotInsideReplacement(t: string, pat: string, rep: string, p: nat, s: string, k: nat)
    requires Shields(pat, rep, p) && Inert(pat, rep, p, s) && VFree(s)
    requires k < |rep| && OccursAt(rep + Replace(t, pat, rep), s, k)
    ensures s != pat && Contains(pat + t, s)
  {
    var r := rep + Replace(t, pat, rep);
    assert forall i | 0 <= i < |s| :: s[i] == r[k + i];
    if k <= p {
      assert k + |s| <= p by { assert VFree(s) && r[k + (p - k)] == rep[p]; }
      assert s == rep[..p][k..k + |s|] == pat[k..k + |s|];
      ContainsIntro(pat + t, s, k);
    } else {
      assert k < |rep| - 1 ==> Clash(rep, s, k);
      assert s[0] == r[k];
      assert s[1..] <= r[|rep|..] == Replace(t, pat, rep);
      AcrossSeam(t, pat, rep, p, s);
    }
  }

  lemma AcrossSeam(t: string, pat: string, rep: string, p: nat, s: string)
    requires Shields(pat, rep, p) && VFree(s)
    requires s != "" && s[0] == pat[|pat| - 1] && s[1..] <= Replace(t, pat, rep)
    ensures Contains(pat + t, s)
  {
    ReplaceKeepsVFreePrefix(t, pat, rep, p, s[1..]);
    var m := |pat| - 1;
    assert (pat + t)[m..] == [pat[m]] + t;
    ContainsIntro(pat + t, s, m);
  }

  lemma NotReborn(t: string, pat: string, rep: string, p: nat, s: string)
    requires Shields(pat, rep, p) && Inert(pat, rep, p, s) && VFree(s)
    requires s == pat || !Contains(t, s)
    ensures !Contains(Replace(t, pat, rep), s)
  {
    forall k | 0 <= k <= |Replace(t, pat, rep)| ensures !OccursAt(Replace(t, pat, rep), s, k) {
      NotRebornAt(t, pat, rep, p, s, k);
    }
  }

  // --- Counting ---

  /** The number of `v` and `V` in a text. */
  function VCount(s: string): nat {
    if s == "" then 0 else (if IsV(s[0]) then 1 else 0) + VCount(s[1..])
  }

  lemma {:induction false} VCountConcat(a: string, b: string)
    ensures VCount(a + b) == VCount(a) + VCount(b)
  {
    if a == "" {
      assert a + b == b;
    } else {
      VCountConcat(a[1..], b);
      assert (a + b)[1..] == a[1..] + b;
    }
  }

  lemma {:induction false} VCountVFree(s: string)
    requires VFree(s)
    ensures VCount(s) == 0
  {
    if s != "" { VCountVFree(s[1..]); }
  }

  lemma {:induction false} VCountPositive(s: string, k: nat)
    requires k < |s| && IsV(s[k])
    ensures VCount(s) > 0
  {
    if k > 0 { VCountPositive(s[1..], k - 1); }
  }

  /** Python's `t.count(pat)`: the matches of the scan. */
  function Matches(t: string, pat: string): nat
    requires pat != ""
  {
    |Split(t, pat)| - 1
  }

  lemma SwapVCount(pat: string, rep: string, rest: string, rest': string, n: nat)
    requires VFree(pat) && VCount(rest') == VCount(rest) + n * VCount(rep)
    ensures VCount(rep + rest') == VCount(pat + rest) + (n + 1) * VCount(rep)
  {
    VCountConcat(rep, rest');
    VCountConcat(pat, rest);
    VCountVFree(pat);
    assert (n + 1) * VCount(rep) == n * VCount(rep) + VCount(rep);
  }

  lemma SameHeadVCount(c: char, rest: string, rest': string)
    ensures VCount([c] + rest') - VCount(rest') == VCount([c] + rest) - VCount(rest)
  {
    VCountConcat([c], rest);
    VCountConcat([c], rest');
  }

  /** Replacing a v-free string adds the replacement's v's once a match and drops none. */
  lemma {:induction false} ReplaceVCount(t: string, pat: string, rep: string)
    requires pat != "" && VFree(pat)
    ensures VCount(Replace(t, pat, rep)) == VCount(t) + Matches(t, pat) * VCount(rep)
  {
    if t == "" {
    } else if pat <= t {
      var rest := t[|pat|..];
      ReplaceVCount(rest, pat, rep);
      SwapVCount(pat, rep, rest, Replace(rest, pat, rep), Matches(rest, pat));
      assert t == pat + rest;
    } else {
      ReplaceVCount(t[1..], pat, rep);
      SameHeadVCount(t[0], t[1..], Replace(t[1..], pat, rep));
      assert t == [t[0]] + t[1..];
    }
  }

  /** Every character of the output is one of the input or of the replacement. */
  lemma {:induction false} ReplaceChars(t: string, pat: string, rep: string, c: char)
    requires pat != "" && c in Replace(t, pat, rep)
    ensures c in t || c in rep
  {
    if pat <= t {
      if c !in rep { ReplaceChars(t[|pat|..], pat, rep, c); }
    } else {
      if c != t[0] { ReplaceChars(t[1..], pat, rep, c); }
    }
  }

  // --- What a substitution leaves in place ---

  /** An occurrence of `w` overlaps one of `pat` in at most the first `p` characters of `pat`. */
  predicate MeetsOnlyInPrefix(pat: string, w: string, p: nat) {
    forall d | -|w| < d < |pat| :: Clash(pat, w, d) || (d < 0 && |w| + d <= p)
  }

  /** No occurrence of `w` overlaps an occurrence of `pat`. */
  predicate Apart(pat: string, w: string) {
    forall d | -|w| < d < |pat| :: Clash(pat, w, d)
  }

  lemma NoOverlap(t: string, pat: string, w: string, m: nat, k: nat)
    requires Apart(pat, w) && OccursAt(t, pat, m) && OccursAt(t, w, k)
    ensures k + |w| <= m || m + |pat| <= k
  {
    assert -|w| < k - m < |pat| ==> Clash(pat, w, k - m);
  }

  /** The two strings have their first `p` characters in common. */
  predicate SharePrefix(pat: string, rep: string, p: nat) {
    p <= |pat| && p <= |rep| && rep[..p] == pat[..p]
  }

  /** A tail of `w` at the start of the text is still there after the substitution. */
  lemma {:induction false} TailStays(t: string, pat: string, rep: string, p: nat, w: string, m: nat)
    requires pat != "" && SharePrefix(pat, rep, p) && MeetsOnlyInPrefix(pat, w, p)
    requires m <= |w| && w[m..] <= t
    ensures w[m..] <= Replace(t, pat, rep)
    decreases |w| - m
  {
    if m < |w| {
      if pat <= t {
        TailInPrefix(t, pat, rep, p, w, m);
      } else {
        assert w[m..][1..] == w[m + 1..] && w[m..][1..] <= t[1..];
        TailStays(t[1..], pat, rep, p, w, m + 1);
        assert w[m..] == [t[0]] + w[m + 1..];
      }
    }
  }

  lemma TailInPrefix(t: string, pat: string, rep: string, p: nat, w: string, m: nat)
    requires pat != "" && SharePrefix(pat, rep, p) && MeetsOnlyInPrefix(pat, w, p)
    requires m < |w| && w[m..] <= t && pat <= t
    ensures w[m..] <= Replace(t, pat, rep)
  {
    var tail := w[m..];
    assert forall i | 0 <= i < |tail| :: w[m + i] == t[i];
    assert !Clash(pat, w, 0 - m);
    assert tail == pat[..|tail|] == rep[..|tail|];
  }

  /** An occurrence that a match overlaps at most in what the replacement keeps survives. */
  lemma {:induction false} ReplaceKeeps(t: string, pat: string, rep: string, p: nat, w: string, k: nat)
    requires pat != "" && w != "" && SharePrefix(pat, rep, p) && MeetsOnlyInPrefix(pat, w, p) && OccursAt(t, w, k)
    ensures Contains(Replace(t, pat, rep), w)
    decreases |t|
  {
    if k == 0 {
      assert w[0..] == w;
      TailStays(t, pat, rep, p, w, 0);
      ContainsIntro(Replace(t, pat, rep), w, 0);
    } else if pat <= t {
      var rest := t[|pat|..];
      assert t == pat + rest;
      NotInsideMatch(t, pat, p, w, k);
      OccursShift(pat, rest, w, k);
      ReplaceKeeps(rest, pat, rep, p, w, k - |pat|);
      ContainsAfter(rep, Replace(rest, pat, rep), w);
    } else {
      assert t == [t[0]] + t[1..];
      OccursShift([t[0]], t[1..], w, k);
      ReplaceKeeps(t[1..], pat, rep, p, w, k - 1);
      ContainsAfter([t[0]], Replace(t[1..], pat, rep), w);
    }
  }

  lemma NotInsideMatch(t: string, pat: string, p: nat, w: string, k: nat)
    requires MeetsOnlyInPrefix(pat, w, p) && w != "" && pat <= t && OccursAt(t, w, k)
    ensures k >= |pat|
  {
    assert k < |pat| ==> Clash(pat, w, k);
    assert forall i | 0 <= i < |w| :: w[i] == t[k + i];
  }

  lemma ContainsAfter(a: string, t: string, s: string)
    requires Contains(t, s)
    ensures Contains(a + t, s)
  {
    ContainsMono(a, t, "", s);
    assert a + t + "" == a + t;
  }

  /** A beginning in which no match starts is copied. */
  lemma {:induction false} ReplaceSkips(t: string, pat: string, rep: string, w: string)
    requires pat != "" && w <= t
    requires forall d | 0 <= d < |w| :: !OccursAt(t, pat, d)
    ensures Replace(t, pat, rep) == w + Replace(t[|w|..], pat, rep)
  {
    if w != "" {
      SkipsTail(t, pat, w);
      ReplaceSkips(t[1..], pat, rep, w[1..]);
      SkipGlue(t, pat, rep, w);
    }
  }

  lemma SkipsTail(t: string, pat: string, w: string)
    requires w != "" && w <= t
    requires forall d | 0 <= d < |w| :: !OccursAt(t, pat, d)
    ensures w[1..] <= t[1..]
    ensures forall d | 0 <= d < |w[1..]| :: !OccursAt(t[1..], pat, d)
  {
    assert t == [t[0]] + t[1..];
    forall d | 0 <= d < |w[1..]| ensures !OccursAt(t[1..], pat, d) {
      OccursShift([t[0]], t[1..], pat, d + 1);
    }
  }

  lemma SkipGlue(t: string, pat: string, rep: string, w: string)
    requires pat != "" && w != "" && w <= t && !OccursAt(t, pat, 0)
    requires Replace(t[1..], pat, rep) == w[1..] + Replace(t[1..][|w| - 1..], pat, rep)
    ensures Replace(t, pat, rep) == w + Replace(t[|w|..], pat, rep)
  {
    assert t[|w|..] == t[1..][|w| - 1..];
    assert w == [t[0]] + w[1..];
  }

  // --- What a substitution completes ---

  /** The replacement meets `s` only at its own end, and then lacks just the last character of `s`. */
  predicate MeetsOnlyAtEnd(rep: string, s: string) {
    && 0 < |s| - 1 <= |rep|
    && forall d | -|s| < d < |rep| && d != |rep| - |s| + 1 :: Clash(rep, s, d)
  }

  /** The output starts with a proper tail of `s` only if the input does. */
  lemma {:induction false} ReplaceKeepsTail(t: string, pat: string, rep: string, s: string, m: nat)
    requires pat != "" && MeetsOnlyAtEnd(rep, s)
    requires 0 < m <= |s| && s[m..] <= Replace(t, pat, rep)
    ensures s[m..] <= t
  {
    if m < |s| && t != "" {
      assert !(pat <= t) by { assert Clash(rep, s, 0 - m); }
      assert s[m..][1..] == s[m + 1..];
      ReplaceKeepsTail(t[1..], pat, rep, s, m + 1);
    }
  }

  /** If `s` starts inside a replacement, it does so where all but its last character fits, and that
      character follows the match. */
  lemma CompletedNow(t: string, pat: string, rep: string, s: string, k: nat)
    requires pat != "" && MeetsOnlyAtEnd(rep, s) && k < |rep| && OccursAt(rep + Replace(t, pat, rep), s, k)
    ensures !Clash(rep, s, |rep| - |s| + 1) && pat + [s[|s| - 1]] <= pat + t
  {
    var r := rep + Replace(t, pat, rep);
    assert forall i | 0 <= i < |s| :: s[i] == r[k + i];
    assert !Clash(rep, s, k);
    assert k == |rep| - |s| + 1;
    assert s[|s| - 1] == r[k + (|s| - 1)];
    assert Clash(rep, s, 1 - |s|);
  }

  /** If `s` is not in the text, the only way to get it is a match followed by the last character
      of `s`, with a replacement that supplies the rest of `s`. */
  lemma {:induction false} NotCompletedAt(t: string, pat: string, rep: string, s: string, k: nat)
    requires pat != "" && MeetsOnlyAtEnd(rep, s) && !Contains(t, s)
    requires Clash(rep, s, |rep| - |s| + 1) || !Contains(t, pat + [s[|s| - 1]])
    ensures !OccursAt(Replace(t, pat, rep), s, k)
    decreases |t|
  {
    var r, q := Replace(t, pat, rep), pat + [s[|s| - 1]];
    if OccursAt(r, s, k) {
      if t == "" {
      } else if pat <= t {
        var t' := t[|pat|..];
        assert t == pat + t';
        if k < |rep| {
          CompletedNow(t', pat, rep, s, k);
          ContainsIntro(t, q, 0);
        } else {
          OccursShift(rep, Replace(t', pat, rep), s, k);
          if Contains(t', s) { ContainsTail(t, s, |pat|); }
          if Contains(t', q) { ContainsTail(t, q, |pat|); }
          NotCompletedAt(t', pat, rep, s, k - |rep|);
        }
      } else if k == 0 {
        assert s[1..] <= r[1..] == Replace(t[1..], pat, rep);
        ReplaceKeepsTail(t[1..], pat, rep, s, 1);
        assert t == [t[0]] + t[1..];
        ContainsIntro(t, s, 0);
      } else {
        OccursShift([t[0]], Replace(t[1..], pat, rep), s, k);
        if Contains(t[1..], s) { ContainsTail(t, s, 1); }
        if Contains(t[1..], q) { ContainsTail(t, q, 1); }
        NotCompletedAt(t[1..], pat, rep, s, k - 1);
      }
    }
  }

  lemma NotCompleted(t: string, pat: string, rep: string, s: string)
    requires pat != "" && MeetsOnlyAtEnd(rep, s) && !Contains(t, s)
    requires Clash(rep, s, |rep| - |s| + 1) || !Contains(t, pat + [s[|s| - 1]])
    ensures !Contains(Replace(t, pat, rep), s)
  {
    forall k | 0 <= k <= |Replace(t, pat, rep)| ensures !OccursAt(Replace(t, pat, rep), s, k) {
      NotCompletedAt(t, pat, rep, s, k);
    }
  }

  /** A match followed by `c` does turn into the replacement followed by `c`, if matches cannot overlap. */
  lemma {:induction false} CompletedAt(t: string, pat: string, rep: string, c: char, k: nat)
    requires pat != "" && pat[0] != c && OccursAt(t, pat + [c], k)
    requires forall d | 0 < d < |pat| :: Clash(pat, pat, d)
    ensures Contains(Replace(t, pat, rep), rep + [c])
    decreases |t|
  {
    if k == 0 {
      var t' := t[|pat|..];
      assert t' == [c] + t'[1..];
      assert Replace(t, pat, rep) == rep + ([c] + Replace(t'[1..], pat, rep));
      ContainsIntro(Replace(t, pat, rep), rep + [c], 0);
    } else if pat <= t {
      var rest := t[|pat|..];
      assert t == pat + rest;
      assert k < |pat| ==> Clash(pat, pat, k);
      assert t[k..][..|pat|] == pat;
      OccursShift(pat, rest, pat + [c], k);
      CompletedAt(rest, pat, rep, c, k - |pat|);
      ContainsMono(rep, Replace(rest, pat, rep), "", rep + [c]);
      assert rep + Replace(rest, pat, rep) + "" == Replace(t, pat, rep);
    } else {
      assert t == [t[0]] + t[1..];
      OccursShift([t[0]], t[1..], pat + [c], k);
      CompletedAt(t[1..], pat, rep, c, k - 1);
      ContainsMono([t[0]], Replace(t[1..], pat, rep), "", rep + [c]);
      assert [t[0]] + Replace(t[1..], pat, rep) + "" == Replace(t, pat, rep);
    }
  }

  // --- What a substitution encloses ---

  /** What stands where the replacement would stand at index `a` of `s`. */
  function Unreplaced(pat: string, rep: string, s: string, a: nat): string
    requires a + |rep| <= |s|
  {
    s[..a] + pat + s[a + |rep|..]
  }

  /** The replacement meets `s` only at index `a` of `s`, or in what it shares with the search string. */
  predicate FitsOnlyAt(pat: string, rep: string, p: nat, s: string, a: nat) {
    && SharePrefix(pat, rep, p)
    && forall d | -|s| < d < |rep| && d + a != 0 :: Clash(rep, s, d) || (d < 0 && |s| + d <= p)
  }

  /** Past the place where the replacement fits, a tail of `s` in the output was in the input. */
  lemma {:induction false} LateTail(t: string, pat: string, rep: string, p: nat, s: string, a: nat, m: nat)
    requires pat != "" && FitsOnlyAt(pat, rep, p, s, a)
    requires a < m <= |s| && s[m..] <= Replace(t, pat, rep)
    ensures s[m..] <= t
    decreases |s| - m
  {
    if m < |s| && t != "" {
      if pat <= t {
        LateTailInPrefix(t, pat, rep, p, s, a, m);
      } else {
        var r := Replace(t, pat, rep);
        assert s[m..][1..] == s[m + 1..] && s[m..][1..] <= r[1..];
        LateTail(t[1..], pat, rep, p, s, a, m + 1);
        assert s[m..] == [t[0]] + s[m + 1..];
      }
    }
  }

  lemma LateTailInPrefix(t: string, pat: string, rep: string, p: nat, s: string, a: nat, m: nat)
    requires pat != "" && FitsOnlyAt(pat, rep, p, s, a) && pat <= t
    requires a < m < |s| && s[m..] <= Replace(t, pat, rep)
    ensures s[m..] <= t
  {
    var tail, r := s[m..], Replace(t, pat, rep);
    assert forall i | 0 <= i < |tail| :: s[m + i] == r[i];
    assert !Clash(rep, s, 0 - m);
    assert tail == rep[..|tail|] == pat[..|tail|];
  }

  lemma EarlyMatch(t: string, pat: string, rep: string, p: nat, s: string, a: nat, m: nat)
    requires pat != "" && rep != "" && FitsOnlyAt(pat, rep, p, s, a) && (Clash(rep, s, 0 - a) || a + |rep| <= |s|)
    requires 0 <= m <= a < |s| && s[m..] <= Replace(t, pat, rep) && pat <= t
    ensures s[m..] <= t || (a + |rep| <= |s| && !Clash(rep, s, 0 - a) && Unreplaced(pat, rep, s, a)[m..] <= t)
  {
    var tail, r := s[m..], Replace(t, pat, rep);
    assert forall i | 0 <= i < |tail| :: s[m + i] == r[i];
    assert !Clash(rep, s, 0 - m);
    if m < a {
      assert tail == rep[..|tail|] == pat[..|tail|];
    } else {
      MatchFits(t, pat, rep, p, s, a);
    }
  }

  lemma MatchFits(t: string, pat: string, rep: string, p: nat, s: string, a: nat)
    requires pat != "" && rep != "" && FitsOnlyAt(pat, rep, p, s, a) && a + |rep| <= |s|
    requires s[a..] <= Replace(t, pat, rep) && pat <= t
    ensures Unreplaced(pat, rep, s, a)[a..] <= t
  {
    var b, t', r := a + |rep|, t[|pat|..], Replace(t, pat, rep);
    assert s[a..][|rep|..] == s[b..];
    assert s[b..] <= r[|rep|..] == Replace(t', pat, rep);
    LateTail(t', pat, rep, p, s, a, b);
    assert Unreplaced(pat, rep, s, a)[a..] == pat + s[b..];
    assert t == pat + t';
  }

  /** Up to that place, it was in the input, or the search string stood in it. */
  lemma {:induction false} EarlyTail(t: string, pat: string, rep: string, p: nat, s: string, a: nat, m: nat)
    requires pat != "" && rep != "" && FitsOnlyAt(pat, rep, p, s, a) && (Clash(rep, s, 0 - a) || a + |rep| <= |s|)
    requires 0 <= m <= a < |s| && s[m..] <= Replace(t, pat, rep)
    ensures s[m..] <= t || (a + |rep| <= |s| && !Clash(rep, s, 0 - a) && Unreplaced(pat, rep, s, a)[m..] <= t)
    decreases a - m
  {
    var r := Replace(t, pat, rep);
    if t == "" {
    } else if pat <= t {
      EarlyMatch(t, pat, rep, p, s, a, m);
    } else {
      assert s[m..][1..] == s[m + 1..] && s[m..][1..] <= r[1..];
      assert s[m..] == [t[0]] + s[m + 1..] && t == [t[0]] + t[1..];
      if m < a {
        EarlyTail(t[1..], pat, rep, p, s, a, m + 1);
        if a + |rep| <= |s| {
          var e := Unreplaced(pat, rep, s, a);
          assert e[m..] == [s[m]] + e[m + 1..];
        }
      } else {
        LateTail(t[1..], pat, rep, p, s, a, m + 1);
      }
    }
  }

  /** The text holds `s`, or the search string where the replacement would make it `s`. */
  predicate CanEnclose(t: string, pat: string, rep: string, s: string, a: nat) {
    Contains(t, s) || (!Clash(rep, s, 0 - a) && a + |rep| <= |s| && Contains(t, Unreplaced(pat, rep, s, a)))
  }

  lemma {:induction false} NotEnclosedAt(t: string, pat: string, rep: string, p: nat, s: string, a: nat, k: nat)
    requires pat != "" && rep != "" && FitsOnlyAt(pat, rep, p, s, a) && (Clash(rep, s, 0 - a) || a + |rep| <= |s|)
    requires a < |s| && !CanEnclose(t, pat, rep, s, a)
    ensures !OccursAt(Replace(t, pat, rep), s, k)
    decreases |t|
  {
    var r := Replace(t, pat, rep);
    if k == 0 {
      NotAtStart(t, pat, rep, p, s, a);
    } else if t == "" {
    } else if pat <= t {
      var rest := t[|pat|..];
      assert t == pat + rest;
      if k < |rep| {
        NotInsideRep(rep, Replace(rest, pat, rep), s, k);
      } else {
        OccursShift(rep, Replace(rest, pat, rep), s, k);
        StillCannot(t, pat, rep, s, a, |pat|);
        NotEnclosedAt(rest, pat, rep, p, s, a, k - |rep|);
      }
    } else {
      OccursShift([t[0]], Replace(t[1..], pat, rep), s, k);
      StillCannot(t, pat, rep, s, a, 1);
      NotEnclosedAt(t[1..], pat, rep, p, s, a, k - 1);
    }
  }

  lemma NotAtStart(t: string, pat: string, rep: string, p: nat, s: string, a: nat)
    requires pat != "" && rep != "" && FitsOnlyAt(pat, rep, p, s, a) && (Clash(rep, s, 0 - a) || a + |rep| <= |s|)
    requires a < |s| && !CanEnclose(t, pat, rep, s, a)
    ensures !OccursAt(Replace(t, pat, rep), s, 0)
  {
    assert s[0..] == s && t[0..] == t;
    if s <= Replace(t, pat, rep) {
      EarlyTail(t, pat, rep, p, s, a, 0);
      assert !OccursAt(t, s, 0);
      var e := Unreplaced(pat, rep, s, a);
      assert e[0..] == e;
      ContainsIntro(t, e, 0);
    }
  }

  lemma NotInsideRep(rep: string, rest: string, s: string, k: nat)
    requires k < |rep| && Clash(rep, s, k)
    ensures !OccursAt(rep + rest, s, k)
  {
    var i :| 0 <= i < |s| && 0 <= i + k < |rep| && s[i] != rep[i + k];
    assert k + i < |rep + rest| && (rep + rest)[k + i] == rep[i + k];
  }

  lemma StillCannot(t: string, pat: string, rep: string, s: string, a: nat, n: nat)
    requires n <= |t| && !CanEnclose(t, pat, rep, s, a)
    ensures !CanEnclose(t[n..], pat, rep, s, a)
  {
    if Contains(t[n..], s) { ContainsTail(t, s, n); }
    if a + |rep| <= |s| && Contains(t[n..], Unreplaced(pat, rep, s, a)) {
      ContainsTail(t, Unreplaced(pat, rep, s, a), n);
    }
  }

  /** A string that the replacement can only stand inside of is created only there. */
  lemma NotEnclosed(t: string, pat: string, rep: string, p: nat, s: string, a: nat)
    requires pat != "" && rep != "" && FitsOnlyAt(pat, rep, p, s, a) && (Clash(rep, s, 0 - a) || a + |rep| <= |s|)
    requires a < |s| && !CanEnclose(t, pat, rep, s, a)
    ensures !Contains(Replace(t, pat, rep), s)
  {
    forall k | 0 <= k <= |Replace(t, pat, rep)| ensures !OccursAt(Replace(t, pat, rep), s, k) {
      NotEnclosedAt(t, pat, rep, p, s, a, k);
    }
  }

  /** A match between `u` and `v` does become the replacement between them, if no other match can
      start in `u` or `v` or reach into them from before. */
  lemma {:induction false} EnclosedAt(t: string, pat: string, rep: string, u: string, v: string, k: nat)
    requires pat != "" && u != "" && u[0] !in pat[1..] && EndsAtFirstMatch(u, pat) && pat[0] !in v
    requires OccursAt(t, u + pat + v, k)
    ensures Contains(Replace(t, pat, rep), u + rep + v)
    decreases |t|
  {
    var w := u + pat + v;
    if k == 0 {
      EnclosedNow(t, pat, rep, u, v);
    } else if pat <= t {
      var rest := t[|pat|..];
      assert t == pat + rest;
      assert forall i | 0 < i < |pat| :: t[i] == pat[1..][i - 1];
      assert t[k] == t[k..][0] == w[0] == u[0];
      OccursShift(pat, rest, w, k);
      EnclosedAt(rest, pat, rep, u, v, k - |pat|);
      ContainsAfter(rep, Replace(rest, pat, rep), u + rep + v);
    } else {
      assert t == [t[0]] + t[1..];
      OccursShift([t[0]], t[1..], w, k);
      EnclosedAt(t[1..], pat, rep, u, v, k - 1);
      ContainsAfter([t[0]], Replace(t[1..], pat, rep), u + rep + v);
    }
  }

  lemma EnclosedNow(t: string, pat: string, rep: string, u: string, v: string)
    requires pat != "" && EndsAtFirstMatch(u, pat) && pat[0] !in v && u + pat + v <= t
    ensures Contains(Replace(t, pat, rep), u + rep + v)
  {
    var rest := t[|u + pat|..];
    assert t == u + pat + rest;
    ReplaceGap(u, rest, pat, rep);
    forall d | 0 <= d < |v| ensures !OccursAt(rest, pat, d) {
      assert rest[d..][0] == v[d];
    }
    ReplaceSkips(rest, pat, rep, v);
    var out := u + rep + (v + Replace(rest[|v|..], pat, rep));
    assert out == (u + rep + v) + Replace(rest[|v|..], pat, rep);
    ContainsIntro(out, u + rep + v, 0);
  }
}
