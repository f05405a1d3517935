/**
 How one string fares along the script's chain: what a step leaves in the text,
 and what no step brings in.
 */
module Progress {
  import opened Substitution
  import opened WholeWord
  import opened Chain
  import opened Rules

  /** The step of the rule leaves every occurrence of `w` in place. */
  ghost predicate Leaves(rule: Rule, w: string) {
    match rule
    case Plain(pat, rep) => pat != "" && exists p :: SharePrefix(pat, rep, p) && MeetsOnlyInPrefix(pat, w, p)
    case Ticker(pat, _) => pat != "" && Apart(pat, w)
  }

  lemma ApartLeaves(rule: Rule, w: string)
    requires rule.pat != "" && Apart(rule.pat, w)
    ensures Leaves(rule, w)
  {
    assert SharePrefix(rule.pat, rule.rep, 0) && MeetsOnlyInPrefix(rule.pat, w, 0);
  }

  lemma StepKeeps(isWord: char -> bool, rule: Rule, t: string, w: string)
    requires w != "" && Leaves(rule, w) && Contains(t, w)
    ensures Contains(Step(isWord, rule, t), w)
  {
    var k :| 0 <= k <= |t| && OccursAt(t, w, k);
    match rule
    case Plain(pat, rep) =>
      var p :| SharePrefix(pat, rep, p) && MeetsOnlyInPrefix(pat, w, p);
      ReplaceKeeps(t, pat, rep, p, w, k);
    case Ticker(pat, rep) => SubKeepsApart(isWord, t, pat, rep, 0, w, k);
  }

  lemma AfterNext(isWord: char -> bool, t: string, j: nat)
    requires j <= TICKER
    ensures REPLACEMENTS[j].pat != ""
    ensures TextAfter(isWord, t, j + 1) == Step(isWord, REPLACEMENTS[j], TextAfter(isWord, t, j))
  {
    ListIsProper();
  }

  /** After the first `j` entries the text is free of `s`. */
  predicate Away(isWord: char -> bool, s: string, t: string, j: nat)
    requires j <= TICKER + 1
  {
    !Contains(TextAfter(isWord, t, j), s)
  }

  /** Entry `j` does not bring in `s`. */
  predicate Persists(isWord: char -> bool, rules: seq<Rule>, s: string, t: string, j: nat)
    requires Proper(rules) && j < |rules|
  {
    !Contains(After(isWord, rules, t, j), s) ==> !Contains(After(isWord, rules, t, j + 1), s)
  }

  lemma {:induction false} StaysOut(isWord: char -> bool, rules: seq<Rule>, s: string, t: string, j: nat)
    requires Proper(rules) && j <= |rules| && !Contains(t, s)
    requires forall m | 0 <= m < j :: Persists(isWord, rules, s, t, m)
    ensures !Contains(After(isWord, rules, t, j), s)
  {
    if j > 0 {
      StaysOut(isWord, rules, s, t, j - 1);
      assert Persists(isWord, rules, s, t, j - 1);
    }
  }

  /** What every step leaves in place stays in the text from step `i` to step `j`. */
  lemma {:induction false} ChainKeeps(isWord: char -> bool, rules: seq<Rule>, t: string, w: string, i: nat, j: nat)
    requires Proper(rules) && i <= j <= |rules| && w != ""
    requires forall m | i <= m < j :: Leaves(rules[m], w)
    requires Contains(After(isWord, rules, t, i), w)
    ensures Contains(After(isWord, rules, t, j), w)
  {
    if i < j {
      ChainKeeps(isWord, rules, t, w, i, j - 1);
      StepKeeps(isWord, rules[j - 1], After(isWord, rules, t, j - 1), w);
    }
  }

  lemma TextKeeps(isWord: char -> bool, t: string, w: string, i: nat, j: nat)
    requires i <= j <= TICKER + 1 && w != ""
    requires forall m | i <= m < j :: Leaves(REPLACEMENTS[m], w)
    requires !Away(isWord, w, t, i)
    ensures !Away(isWord, w, t, j)
  {
    ListIsProper();
    ChainKeeps(isWord, REPLACEMENTS, t, w, i, j);
  }

  /** What every step spares stays out of the text. */
  lemma {:induction false} ChainSpares(isWord: char -> bool, rules: seq<Rule>, t: string, lost: Rule, j: nat)
    requires Proper(rules) && j <= |rules| && !Present(isWord, lost, t)
    requires forall m | 0 <= m < j :: Spares(isWord, rules[m], lost)
    ensures !Present(isWord, lost, After(isWord, rules, t, j))
  {
    if j > 0 {
      ChainSpares(isWord, rules, t, lost, j - 1);
      StepSpares(isWord, rules[j - 1], lost, After(isWord, rules, t, j - 1));
    }
  }

  lemma EntrySparesVFree(isWord: char -> bool, w: string, j: nat)
    requires |w| >= 3 && w[0] == 'T' && w[1] == 'h' && VFree(w) && j < TICKER
    ensures Spares(isWord, REPLACEMENTS[j], Plain(w, w))
  {
    AllHarmless(j);
    HarmlessIsInert(j, REPLACEMENTS[j].pat, REPLACEMENTS[j].rep, SHIELD[j], w);
  }

  /** No plain entry brings in a v-free string that starts as `The Monero Project` does. */
  lemma VFreeStaysAway(isWord: char -> bool, w: string, t: string, j: nat)
    requires |w| >= 3 && w[0] == 'T' && w[1] == 'h' && VFree(w)
    requires j <= TICKER && Away(isWord, w, t, 0)
    ensures Away(isWord, w, t, j)
  {
    ListIsProper();
    forall m | 0 <= m < j ensures Spares(isWord, REPLACEMENTS[m], Plain(w, w)) {
      EntrySparesVFree(isWord, w, m);
    }
    ChainSpares(isWord, REPLACEMENTS, t, Plain(w, w), j);
  }
}
