/**
 Python's `re.sub(r"\bword\b", rep, t)`. What counts as a word character is a
 parameter, so that everything here holds for Python's Unicode definition.
 */
module WholeWord {
  import opened Substitution

  /** `\b` matches at index `k`: exactly one side of it is a word character. */
  predicate Boundary(isWord: char -> bool, t: string, k: nat)
    requires k <= |t|
  {
    (k > 0 && isWord(t[k - 1])) != (k < |t| && isWord(t[k]))
  }

  predicate MatchAt(isWord: char -> bool, t: string, word: string, k: nat) {
    OccursAt(t, word, k) && Boundary(isWord, t, k) && Boundary(isWord, t, k + |word|)
  }

  predicate HasWord(isWord: char -> bool, t: string, word: string) {
    exists k | 0 <= k <= |t| :: MatchAt(isWord, t, word, k)
  }

  /** A word that starts and ends in word characters is matched exactly where no word character stands
      next to it, on either side. */
  lemma MatchAtIff(isWord: char -> bool, t: string, word: string, k: nat)
    requires word != "" && isWord(word[0]) && isWord(word[|word| - 1])
    ensures MatchAt(isWord, t, word, k) <==>
            && k + |word| <= |t| && t[k..k + |word|] == word
            && (k > 0 ==> !isWord(t[k - 1]))
            && (k + |word| < |t| ==> !isWord(t[k + |word|]))
  {
    var n := k + |word|;
    if n <= |t| {
      assert t[k..][..|word|] == t[k..n];
      if t[k..n] == word {
        assert t[k] == t[k..n][0] == word[0] && t[n - 1] == t[k..n][|word| - 1] == word[|word| - 1];
      }
    }
  }

  /** The part of the result that stems from `t[k..]`; boundaries look at the unmodified text. */
  function SubFrom(isWord: char -> bool, t: string, word: string, rep: string, k: nat): string
    requires word != "" && k <= |t|
    decreases |t| - k
  {
    if k == |t| then ""
    else if MatchAt(isWord, t, word, k) then rep + SubFrom(isWord, t, word, rep, k + |word|)
    else [t[k]] + SubFrom(isWord, t, word, rep, k + 1)
  }

  function Sub(isWord: char -> bool, t: string, word: string, rep: string): string
    requires word != ""
  {
    SubFrom(isWord, t, word, rep, 0)
  }

  /** The number of substitutions made from index `k` on. */
  function WordMatches(isWord: char -> bool, t: string, word: string, k: nat): nat
    requires word != "" && k <= |t|
    decreases |t| - k
  {
    if k == |t| then 0
    else if MatchAt(isWord, t, word, k) then 1 + WordMatches(isWord, t, word, k + |word|)
    else WordMatches(isWord, t, word, k + 1)
  }

  /** From index `k` on, the text goes on with `gap`, in which no match starts. */
  predicate IsGap(isWord: char -> bool, t: string, word: string, gap: string, k: nat) {
    OccursAt(t, gap, k) && forall m | k <= m < k + |gap| :: !MatchAt(isWord, t, word, m)
  }

  /** The gaps around the whole-word matches from index `k` on: each but the last ends at a match. */
  predicate WordGaps(isWord: char -> bool, t: string, word: string, gaps: seq<string>, k: nat)
    decreases |gaps|
  {
    && gaps != [] && IsGap(isWord, t, word, gaps[0], k)
    && if |gaps| == 1 then k + |gaps[0]| == |t|
       else
         && MatchAt(isWord, t, word, k + |gaps[0]|)
         && WordGaps(isWord, t, word, gaps[1..], k + |gaps[0]| + |word|)
  }

  lemma JoinParts(parts: seq<string>, sep: string)
    requires parts != []
    ensures Join(parts, sep) == parts[0] + if |parts| == 1 then "" else sep + Join(parts[1..], sep)
  {
  }

  lemma OccursTail(t: string, s: string, k: nat)
    requires OccursAt(t, s, k) && s != ""
    ensures k < |t| && t[k] == s[0] && OccursAt(t, s[1..], k + 1)
  {
    assert t[k..][1..] == t[k + 1..];
  }

  lemma SubSteps(isWord: char -> bool, t: string, word: string, rep: string, k: nat)
    requires word != "" && k < |t|
    ensures SubFrom(isWord, t, word, rep, k)
            == if MatchAt(isWord, t, word, k) then rep + SubFrom(isWord, t, word, rep, k + |word|)
               else [t[k]] + SubFrom(isWord, t, word, rep, k + 1)
  {
  }

  /** A stretch in which no match starts is copied. */
  lemma {:induction false} SubCopiesGap(isWord: char -> bool, t: string, word: string, rep: string, gap: string, k: nat)
    requires word != "" && IsGap(isWord, t, word, gap, k)
    ensures SubFrom(isWord, t, word, rep, k) == gap + SubFrom(isWord, t, word, rep, k + |gap|)
    decreases |gap|
  {
    if gap != "" {
      OccursTail(t, gap, k);
      SubCopiesGap(isWord, t, word, rep, gap[1..], k + 1);
      SubSteps(isWord, t, word, rep, k);
      Glue(t[k], gap[1..], SubFrom(isWord, t, word, rep, k + |gap|), gap);
    }
  }

  /** The gaps are kept, and the replacement stands where the word stood. */
  predicate KeepsGaps(isWord: char -> bool, t: string, word: string, rep: string, gaps: seq<string>, k: nat)
    requires word != "" && k <= |t|
  {
    SubFrom(isWord, t, word, rep, k) == Join(gaps, rep)
  }

  /** The gaps fix the outcome. */
  lemma {:induction false} SubReference(isWord: char -> bool, t: string, word: string, rep: string,
                                        gaps: seq<string>, k: nat)
    requires word != "" && WordGaps(isWord, t, word, gaps, k)
    ensures KeepsGaps(isWord, t, word, rep, gaps, k)
    decreases |gaps|
  {
    if |gaps| == 1 {
      SubCopiesGap(isWord, t, word, rep, gaps[0], k);
    } else {
      SubReference(isWord, t, word, rep, gaps[1..], k + |gaps[0]| + |word|);
      MoreGaps(isWord, t, word, rep, gaps, k);
    }
  }

  lemma MoreGaps(isWord: char -> bool, t: string, word: string, rep: string, gaps: seq<string>, k: nat)
    requires word != "" && |gaps| > 1 && IsGap(isWord, t, word, gaps[0], k) && MatchAt(isWord, t, word, k + |gaps[0]|)
    requires KeepsGaps(isWord, t, word, rep, gaps[1..], k + |gaps[0]| + |word|)
    ensures KeepsGaps(isWord, t, word, rep, gaps, k)
  {
    JoinParts(gaps, rep);
    GapThenMatch(isWord, t, word, rep, gaps[0], k);
  }

  lemma GapThenMatch(isWord: char -> bool, t: string, word: string, rep: string, gap: string, k: nat)
    requires word != "" && IsGap(isWord, t, word, gap, k) && MatchAt(isWord, t, word, k + |gap|)
    ensures SubFrom(isWord, t, word, rep, k) == gap + (rep + SubFrom(isWord, t, word, rep, k + |gap| + |word|))
  {
    SubCopiesGap(isWord, t, word, rep, gap, k);
    SubSteps(isWord, t, word, rep, k + |gap|);
  }

  /** With the word itself in between, they are the text. */
  lemma {:induction false} GapsAreText(isWord: char -> bool, t: string, word: string, gaps: seq<string>, k: nat)
    requires word != "" && WordGaps(isWord, t, word, gaps, k)
    ensures IsRest(t, k, Join(gaps, word))
    decreases |gaps|
  {
    if |gaps| == 1 {
      SplitAt(t, gaps[0], k);
      JoinParts(gaps, word);
    } else {
      GapsAreText(isWord, t, word, gaps[1..], k + |gaps[0]| + |word|);
      TextGoesOn(t, word, gaps, k);
    }
  }

  /** `rest` is what the text holds from index `k` on. */
  predicate IsRest(t: string, k: nat, rest: string) {
    k <= |t| && t[k..] == rest
  }

  lemma TextGoesOn(t: string, word: string, gaps: seq<string>, k: nat)
    requires |gaps| > 1 && OccursAt(t, gaps[0], k) && OccursAt(t, word, k + |gaps[0]|)
    requires IsRest(t, k + |gaps[0]| + |word|, Join(gaps[1..], word))
    ensures IsRest(t, k, Join(gaps, word))
  {
    SplitAt(t, gaps[0], k);
    SplitAt(t, word, k + |gaps[0]|);
    JoinParts(gaps, word);
  }

  lemma SplitAt(t: string, s: string, k: nat)
    requires OccursAt(t, s, k)
    ensures k + |s| <= |t| && t[k..] == s + t[k + |s|..]
  {
  }

  /** Every text has such gaps. */
  lemma {:induction false} FindGaps(isWord: char -> bool, t: string, word: string, k: nat) returns (gaps: seq<string>)
    requires word != "" && k <= |t|
    ensures WordGaps(isWord, t, word, gaps, k)
    decreases |t| - k
  {
    if k == |t| {
      gaps := [""];
    } else if MatchAt(isWord, t, word, k) {
      var rest := FindGaps(isWord, t, word, k + |word|);
      gaps := [""] + rest;
      assert gaps[1..] == rest;
    } else {
      var rest := FindGaps(isWord, t, word, k + 1);
      gaps := [[t[k]] + rest[0]] + rest[1..];
      assert gaps[1..] == rest[1..];
      LongerGap(isWord, t, word, rest[0], k);
    }
  }

  lemma LongerGap(isWord: char -> bool, t: string, word: string, gap: string, k: nat)
    requires k < |t| && !MatchAt(isWord, t, word, k) && IsGap(isWord, t, word, gap, k + 1)
    ensures IsGap(isWord, t, word, [t[k]] + gap, k)
  {
    assert t[k..] == [t[k]] + t[k + 1..];
  }

  /** What the substitutions of a ticker have in common: a v-free word made way for one that starts
      with `v`, that the word cannot start in, and that a boundary cannot tell from the word. */
  predicate TickerLike(isWord: char -> bool, word: string, rep: string) {
    && word != "" && VFree(word) && isWord(word[0]) && isWord(word[|word| - 1])
    && rep != "" && IsV(rep[0]) && word[0] !in rep && isWord(rep[0]) && isWord(rep[|rep| - 1])
  }

  lemma {:induction false} SubAbsentFrom(isWord: char -> bool, t: string, word: string, rep: string, k: nat)
    requires word != "" && k <= |t| && !HasWord(isWord, t, word)
    ensures SubFrom(isWord, t, word, rep, k) == t[k..]
    ensures WordMatches(isWord, t, word, k) == 0
    decreases |t| - k
  {
    if k < |t| {
      SubAbsentFrom(isWord, t, word, rep, k + 1);
    }
  }

  /** A text without the word is left alone. */
  lemma SubAbsent(isWord: char -> bool, t: string, word: string, rep: string)
    requires word != "" && !HasWord(isWord, t, word)
    ensures Sub(isWord, t, word, rep) == t
  {
    SubAbsentFrom(isWord, t, word, rep, 0);
  }

  lemma CopiesFirst(isWord: char -> bool, t: string, word: string, rep: string, k: nat, x: string)
    requires word != "" && k <= |t| && rep != "" && IsV(rep[0])
    requires x != "" && VFree(x) && x <= SubFrom(isWord, t, word, rep, k)
    ensures k < |t| && x[0] == t[k] && x[1..] <= SubFrom(isWord, t, word, rep, k + 1)
    ensures SubFrom(isWord, t, word, rep, k) == [t[k]] + SubFrom(isWord, t, word, rep, k + 1)
  {
    var r := SubFrom(isWord, t, word, rep, k);
    assert x[0] == r[0];
    assert x[1..] <= r[1..];
  }

  lemma Glue(c: char, y: string, tail: string, x: string)
    requires x != "" && x[0] == c && x[1..] == y
    ensures [c] + (y + tail) == x + tail
  {
    assert x == [c] + y;
  }

  /** A v-free beginning of the output was copied from the input. */
  lemma {:induction false} SubCopies(isWord: char -> bool, t: string, word: string, rep: string, k: nat, x: string)
    requires word != "" && k <= |t| && rep != "" && IsV(rep[0])
    requires VFree(x) && x <= SubFrom(isWord, t, word, rep, k)
    ensures x <= t[k..]
    ensures SubFrom(isWord, t, word, rep, k) == x + SubFrom(isWord, t, word, rep, k + |x|)
    decreases |x|
  {
    if x != "" {
      CopiesFirst(isWord, t, word, rep, k, x);
      SubCopies(isWord, t, word, rep, k + 1, x[1..]);
      Glue(t[k], x[1..], SubFrom(isWord, t, word, rep, k + |x|), x);
      Glue(t[k], x[1..], t[k + |x|..], x);
      assert t[k + 1..] == x[1..] + t[k + |x|..] && t[k..] == [t[k]] + t[k + 1..];
    }
  }

  /** The substitution does not bring back a v-free string that cannot start in the replacement. */
  lemma {:induction false} SubNotRebornAt(isWord: char -> bool, t: string, word: string, rep: string, k: nat,
                                          s: string, m: nat)
    requires word != "" && k <= |t| && rep != "" && IsV(rep[0])
    requires s != "" && VFree(s) && s[0] !in rep && !Contains(t, s)
    ensures !OccursAt(SubFrom(isWord, t, word, rep, k), s, m)
    decreases |t| - k
  {
    var r := SubFrom(isWord, t, word, rep, k);
    if OccursAt(r, s, m) {
      if k == |t| {
      } else if MatchAt(isWord, t, word, k) {
        assert r[m] == s[0];
        OccursShift(rep, SubFrom(isWord, t, word, rep, k + |word|), s, m);
        SubNotRebornAt(isWord, t, word, rep, k + |word|, s, m - |rep|);
      } else if m == 0 {
        SubCopies(isWord, t, word, rep, k, s);
        ContainsIntro(t, s, k);
      } else {
        OccursShift([t[k]], SubFrom(isWord, t, word, rep, k + 1), s, m);
        SubNotRebornAt(isWord, t, word, rep, k + 1, s, m - 1);
      }
    }
  }

  lemma SubNotReborn(isWord: char -> bool, t: string, word: string, rep: string, s: string)
    requires word != "" && rep != "" && IsV(rep[0])
    requires s != "" && VFree(s) && s[0] !in rep && !Contains(t, s)
    ensures !Contains(Sub(isWord, t, word, rep), s)
  {
    forall k | 0 <= k <= |Sub(isWord, t, word, rep)| ensures !OccursAt(Sub(isWord, t, word, rep), s, k) {
      SubNotRebornAt(isWord, t, word, rep, 0, s, k);
    }
  }

  /** What precedes index `k` looks, to a boundary, like the output so far. */
  predicate SameLeft(isWord: char -> bool, t: string, k: nat, done: string) {
    k <= |t| && (k > 0 && isWord(t[k - 1])) == (done != "" && isWord(done[|done| - 1]))
  }

  lemma SameRight(isWord: char -> bool, t: string, word: string, rep: string, k: nat)
    requires TickerLike(isWord, word, rep) && k <= |t|
    ensures var r := SubFrom(isWord, t, word, rep, k);
            (k < |t| && isWord(t[k])) == (r != "" && isWord(r[0]))
  {
  }

  /** No match of the output starts where `SubFrom(.., k)` does: the input would have had it at `k`. */
  lemma NoMatchHere(isWord: char -> bool, t: string, word: string, rep: string, k: nat, done: string)
    requires TickerLike(isWord, word, rep) && SameLeft(isWord, t, k, done)
    ensures !MatchAt(isWord, done + SubFrom(isWord, t, word, rep, k), word, |done|)
  {
    var r := SubFrom(isWord, t, word, rep, k);
    var out := done + r;
    OccursShift(done, r, word, |done|);
    assert r[0..] == r;
    if word <= r {
      SubCopies(isWord, t, word, rep, k, word);
      SameRight(isWord, t, word, rep, k);
      SameRight(isWord, t, word, rep, k + |word|);
      assert out == done + word + SubFrom(isWord, t, word, rep, k + |word|);
      assert Boundary(isWord, out, |done|) == Boundary(isWord, t, k);
      assert t[k + |word| - 1] == word[|word| - 1];
      assert Boundary(isWord, out, |done| + |word|) == Boundary(isWord, t, k + |word|);
      assert r[0] == word[0];
    }
  }

  /** After `done`, the output of the rest of the text has no match at index `m`. */
  predicate NoneAt(isWord: char -> bool, t: string, word: string, rep: string, k: nat, done: string, m: nat)
    requires word != "" && k <= |t|
  {
    !MatchAt(isWord, done + SubFrom(isWord, t, word, rep, k), word, m)
  }

  lemma {:induction false} NoWordLeftFrom(isWord: char -> bool, t: string, word: string, rep: string, k: nat,
                                          done: string, m: nat)
    requires TickerLike(isWord, word, rep) && SameLeft(isWord, t, k, done)
    requires m >= |done|
    ensures NoneAt(isWord, t, word, rep, k, done, m)
    decreases |t| - k
  {
    if m == |done| {
      NoMatchHere(isWord, t, word, rep, k, done);
    } else if k == |t| {
    } else if MatchAt(isWord, t, word, k) {
      if m >= |done + rep| {
        assert t[k + |word| - 1] == word[|word| - 1];
        NoWordLeftFrom(isWord, t, word, rep, k + |word|, done + rep, m);
      }
      PastMatch(isWord, t, word, rep, k, done, m);
    } else {
      NoWordLeftFrom(isWord, t, word, rep, k + 1, done + [t[k]], m);
      PastChar(isWord, t, word, rep, k, done, m);
    }
  }

  lemma PastChar(isWord: char -> bool, t: string, word: string, rep: string, k: nat, done: string, m: nat)
    requires word != "" && k < |t| && !MatchAt(isWord, t, word, k)
    requires NoneAt(isWord, t, word, rep, k + 1, done + [t[k]], m)
    ensures NoneAt(isWord, t, word, rep, k, done, m)
  {
    var rest := SubFrom(isWord, t, word, rep, k + 1);
    assert done + ([t[k]] + rest) == (done + [t[k]]) + rest;
    SubSteps(isWord, t, word, rep, k);
  }

  lemma PastMatch(isWord: char -> bool, t: string, word: string, rep: string, k: nat, done: string, m: nat)
    requires word != "" && word[0] !in rep && MatchAt(isWord, t, word, k) && m >= |done|
    requires m < |done + rep| || NoneAt(isWord, t, word, rep, k + |word|, done + rep, m)
    ensures NoneAt(isWord, t, word, rep, k, done, m)
  {
    var rest := SubFrom(isWord, t, word, rep, k + |word|);
    assert done + (rep + rest) == (done + rep) + rest;
    SubSteps(isWord, t, word, rep, k);
    if m < |done + rep| { NoMatchInside(isWord, done, rep, rest, word, m); }
  }

  lemma NoMatchInside(isWord: char -> bool, done: string, rep: string, rest: string, word: string, m: nat)
    requires word != "" && word[0] !in rep && |done| <= m < |done| + |rep|
    ensures !MatchAt(isWord, done + (rep + rest), word, m)
  {
    var out := done + (rep + rest);
    assert out[m] == rep[m - |done|];
    assert out[m..][0] == out[m];
  }

  /** One pass leaves no whole-word occurrence, although boundaries are judged in the new text. */
  lemma NoWordLeft(isWord: char -> bool, t: string, word: string, rep: string)
    requires TickerLike(isWord, word, rep)
    ensures !HasWord(isWord, Sub(isWord, t, word, rep), word)
  {
    var out := Sub(isWord, t, word, rep);
    forall m | 0 <= m <= |out| ensures !MatchAt(isWord, out, word, m) {
      NoWordLeftFrom(isWord, t, word, rep, 0, "", m);
      assert "" + out == out;
    }
  }

  lemma {:induction false} SubVCountFrom(isWord: char -> bool, t: string, word: string, rep: string, k: nat)
    requires word != "" && VFree(word) && k <= |t|
    ensures VCount(SubFrom(isWord, t, word, rep, k)) == VCount(t[k..]) + WordMatches(isWord, t, word, k) * VCount(rep)
    decreases |t| - k
  {
    if k == |t| {
    } else if MatchAt(isWord, t, word, k) {
      SubVCountFrom(isWord, t, word, rep, k + |word|);
      MatchVCount(isWord, t, word, rep, k);
    } else {
      SubVCountFrom(isWord, t, word, rep, k + 1);
      SameHeadVCount(t[k], t[k + 1..], SubFrom(isWord, t, word, rep, k + 1));
      assert t[k..] == [t[k]] + t[k + 1..];
    }
  }

  lemma MatchVCount(isWord: char -> bool, t: string, word: string, rep: string, k: nat)
    requires word != "" && VFree(word) && MatchAt(isWord, t, word, k)
    requires var n := k + |word|;
             VCount(SubFrom(isWord, t, word, rep, n)) == VCount(t[n..]) + WordMatches(isWord, t, word, n) * VCount(rep)
    ensures VCount(SubFrom(isWord, t, word, rep, k)) == VCount(t[k..]) + WordMatches(isWord, t, word, k) * VCount(rep)
  {
    var n := k + |word|;
    SwapVCount(word, rep, t[n..], SubFrom(isWord, t, word, rep, n), WordMatches(isWord, t, word, n));
    assert t[k..] == word + t[n..];
  }

  lemma {:induction false} SubChars(isWord: char -> bool, t: string, word: string, rep: string, k: nat, c: char)
    requires word != "" && k <= |t| && c in SubFrom(isWord, t, word, rep, k)
    ensures c in t || c in rep
    decreases |t| - k
  {
    if MatchAt(isWord, t, word, k) {
      if c !in rep { SubChars(isWord, t, word, rep, k + |word|, c); }
    } else {
      if c != t[k] { SubChars(isWord, t, word, rep, k + 1, c); }
    }
  }

  /** An occurrence that the word cannot overlap survives the substitution. */
  lemma {:induction false} SubKeepsApart(isWord: char -> bool, t: string, word: string, rep: string, k: nat,
                                         w: string, m: nat)
    requires word != "" && w != "" && Apart(word, w) && k <= m && OccursAt(t, w, m)
    ensures Contains(SubFrom(isWord, t, word, rep, k), w)
    decreases m - k
  {
    var r := SubFrom(isWord, t, word, rep, k);
    if MatchAt(isWord, t, word, k) {
      NoOverlap(t, word, w, k, m);
      var rest := SubFrom(isWord, t, word, rep, k + |word|);
      SubKeepsApart(isWord, t, word, rep, k + |word|, w, m);
      ContainsMono(rep, rest, "", w);
      assert rep + rest + "" == r;
    } else if k < m {
      var rest := SubFrom(isWord, t, word, rep, k + 1);
      SubKeepsApart(isWord, t, word, rep, k + 1, w, m);
      ContainsMono([t[k]], rest, "", w);
      assert [t[k]] + rest + "" == r;
    } else {
      SubSkips(isWord, t, word, rep, k, w, 0);
      assert w[0..] == w;
      ContainsIntro(r, w, 0);
    }
  }

  lemma {:induction false} SubSkips(isWord: char -> bool, t: string, word: string, rep: string, k: nat,
                                    w: string, i: nat)
    requires word != "" && Apart(word, w) && OccursAt(t, w, k) && i <= |w|
    ensures CopiedFrom(isWord, t, word, rep, k + i, w[i..])
    decreases |w| - i
  {
    if i < |w| {
      SubSkips(isWord, t, word, rep, k, w, i + 1);
      NoMatchIn(isWord, t, word, w, k, i);
      CopiesOne(isWord, t, word, rep, k + i, w[i..]);
    }
  }

  /** What stems from index `k` on starts with `x`. */
  predicate CopiedFrom(isWord: char -> bool, t: string, word: string, rep: string, k: nat, x: string)
    requires word != "" && k <= |t|
  {
    x <= SubFrom(isWord, t, word, rep, k)
  }

  lemma CopiesOne(isWord: char -> bool, t: string, word: string, rep: string, k: nat, x: string)
    requires word != "" && k < |t| && !MatchAt(isWord, t, word, k) && x != "" && x[0] == t[k]
    requires CopiedFrom(isWord, t, word, rep, k + 1, x[1..])
    ensures CopiedFrom(isWord, t, word, rep, k, x)
  {
    assert x == [x[0]] + x[1..];
  }

  lemma NoMatchIn(isWord: char -> bool, t: string, word: string, w: string, k: nat, i: nat)
    requires word != "" && Apart(word, w) && OccursAt(t, w, k) && i < |w|
    ensures !MatchAt(isWord, t, word, k + i) && k + i < |t| && t[k + i] == w[i]
  {
    if MatchAt(isWord, t, word, k + i) { NoOverlap(t, word, w, k + i, k); }
  }

  /** The replacement meets `s` at most in its own last character. */
  predicate MeetsOnlyInLast(rep: string, s: string) {
    |rep| >= 2 && forall d | -|s| < d < |rep| - 1 :: Clash(rep, s, d)
  }

  lemma {:induction false} SubTail(isWord: char -> bool, t: string, word: string, rep: string, k: nat,
                                   s: string, i: nat)
    requires word != "" && MeetsOnlyInLast(rep, s) && k <= |t|
    requires i <= |s| && s[i..] <= SubFrom(isWord, t, word, rep, k)
    ensures s[i..] <= t[k..]
    decreases |t| - k
  {
    if i < |s| && k < |t| {
      var r := SubFrom(isWord, t, word, rep, k);
      assert Clash(rep, s, 0 - i);
      assert s[i] == r[0];
      assert r == [t[k]] + SubFrom(isWord, t, word, rep, k + 1);
      assert s[i..][1..] == s[i + 1..];
      SubTail(isWord, t, word, rep, k + 1, s, i + 1);
      assert t[k..] == [t[k]] + t[k + 1..];
      assert s[i..] == [s[i]] + s[i + 1..];
    }
  }

  /** What follows a substitution is no word character, so a string that goes on with one
      after its first character does not start at the end of the replacement either. */
  lemma NotAtEnd(isWord: char -> bool, t: string, word: string, rep: string, k: nat, s: string)
    requires TickerLike(isWord, word, rep) && MatchAt(isWord, t, word, k) && |s| >= 2 && isWord(s[1])
    ensures !OccursAt(SubFrom(isWord, t, word, rep, k), s, |rep| - 1)
  {
    var rest := SubFrom(isWord, t, word, rep, k + |word|);
    var r := rep + rest;
    assert t[k + |word| - 1] == word[|word| - 1];
    SameRight(isWord, t, word, rep, k + |word|);
    assert rest != "" ==> r[|rep| - 1..][1] == rest[0];
  }

  /** A string the replacement hardly meets is in the output only if it is in the input. */
  lemma {:induction false} SubCreatesNoneAt(isWord: char -> bool, t: string, word: string, rep: string, k: nat,
                                            s: string, m: nat)
    requires TickerLike(isWord, word, rep) && MeetsOnlyInLast(rep, s) && |s| >= 2 && isWord(s[1])
    requires k <= |t| && !Contains(t, s)
    ensures !OccursAt(SubFrom(isWord, t, word, rep, k), s, m)
    decreases |t| - k
  {
    var r := SubFrom(isWord, t, word, rep, k);
    if OccursAt(r, s, m) {
      if k == |t| {
      } else if MatchAt(isWord, t, word, k) {
        var rest := SubFrom(isWord, t, word, rep, k + |word|);
        assert r == rep + rest;
        assert m < |rep| - 1 ==> Clash(rep, s, m);
        NotAtEnd(isWord, t, word, rep, k, s);
        OccursShift(rep, rest, s, m);
        SubCreatesNoneAt(isWord, t, word, rep, k + |word|, s, m - |rep|);
      } else if m == 0 {
        SubTail(isWord, t, word, rep, k, s, 0);
        ContainsIntro(t, s, k);
      } else {
        OccursShift([t[k]], SubFrom(isWord, t, word, rep, k + 1), s, m);
        SubCreatesNoneAt(isWord, t, word, rep, k + 1, s, m - 1);
      }
    }
  }
}
