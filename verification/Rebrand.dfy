/**
 What the rebranding script achieves on every text: the theorems about chains of
 substitutions, for the script's own list.
 */
module Rebrand {
  import opened Substitution
  import opened WholeWord
  import opened Chain
  import opened Rules

  /** For every pair of entries, the later step leaves no new place for the earlier one to rewrite. */
  lemma NoLaterStepRevives(isWord: char -> bool, i: nat, j: nat, t: string)
    requires LettersAreWord(isWord) && i < j < |REPLACEMENTS|
    requires !Present(isWord, REPLACEMENTS[i], t)
    ensures REPLACEMENTS[j].pat != "" && !Present(isWord, REPLACEMENTS[i], Step(isWord, REPLACEMENTS[j], t))
  {
    ListIsProper();
    TickerEntry(isWord);
    EntriesSpare(isWord, i, j);
    StepSpares(isWord, REPLACEMENTS[j], REPLACEMENTS[i], t);
  }

  /** ... although an earlier step may well create what a later entry looks for: the `m` of an
      inserted `.com` completes the `onerod` that follows. */
  lemma EarlierStepCreates()
    ensures !Contains("checkpoints.moneropulse.coonerod", "monerod")
    ensures REPLACEMENTS[0].pat != ""
    ensures Contains(Replace("checkpoints.moneropulse.coonerod", REPLACEMENTS[0].pat, REPLACEMENTS[0].rep), "monerod")
  {
    NoDaemonYet();
    var pat, rep := "checkpoints.moneropulse.co", "checkpoints.velkavo.com";
    assert "checkpoints.moneropulse.coonerod" == pat + "onerod";
    SeamCreates(pat, rep);
  }

  lemma NoDaemonYet()
    ensures !Contains("checkpoints.moneropulse.coonerod", "monerod")
  {
    var t, s := "checkpoints.moneropulse.coonerod", "monerod";
    assert forall k | 0 <= k < 26 :: t[k] != 'm' || t[k + 6] != 'd';
    forall k | 0 <= k <= |t| ensures !OccursAt(t, s, k) {
      assert s <= t[k..] ==> t[k..][0] == s[0] && t[k..][6] == s[6];
    }
  }

  lemma SeamCreates(pat: string, rep: string)
    requires |pat| > 6 && rep != "" && rep[|rep| - 1] == 'm'
    ensures Contains(Replace(pat + "onerod", pat, rep), "monerod")
  {
    var rest := "onerod";
    assert (pat + rest)[|pat|..] == rest;
    ReplaceAbsent(rest, pat, rep);
    var out := rep + rest;
    assert out[|rep| - 1..] == "monerod";
    ContainsIntro(out, "monerod", |rep| - 1);
  }

  /** `XMR` stands at index `k`, with no word character before or after it. */
  predicate TickerAt(isWord: char -> bool, t: string, k: nat) {
    && k + 3 <= |t| && t[k] == 'X' && t[k + 1] == 'M' && t[k + 2] == 'R'
    && (k > 0 ==> !isWord(t[k - 1]))
    && (k + 3 < |t| ==> !isWord(t[k + 3]))
  }

  lemma TickerAtIff(isWord: char -> bool, t: string, k: nat)
    requires LettersAreWord(isWord)
    ensures MatchAt(isWord, t, "XMR", k) <==> TickerAt(isWord, t, k)
  {
    assert isWord('X') && isWord('R');
    MatchAtIff(isWord, t, "XMR", k);
    if k + 3 <= |t| {
      assert t[k..k + 3] == [t[k], t[k + 1], t[k + 2]];
      var word := "XMR";
      assert word[0] == 'X' && word[1] == 'M' && word[2] == 'R';
    }
  }

  /** What the script's pattern finds anywhere in a text. */
  lemma HasTickerIff(isWord: char -> bool, t: string)
    requires LettersAreWord(isWord)
    ensures HasWord(isWord, t, "XMR") <==> exists k :: TickerAt(isWord, t, k)
  {
    forall k: nat ensures MatchAt(isWord, t, "XMR", k) <==> TickerAt(isWord, t, k) {
      TickerAtIff(isWord, t, k);
    }
  }

  /** The text holds a search string or a whole-word ticker. */
  ghost predicate Branded(isWord: char -> bool, t: string) {
    (exists i | 0 <= i < TICKER :: Contains(t, REPLACEMENTS[i].pat)) || exists k :: TickerAt(isWord, t, k)
  }

  /** The output holds no search string of the list and no whole-word ticker. */
  lemma NothingIsLeft(isWord: char -> bool, t: string)
    requires LettersAreWord(isWord)
    ensures forall i | 0 <= i < TICKER :: !Contains(Rebranded(isWord, t), REPLACEMENTS[i].pat)
    ensures forall k :: !TickerAt(isWord, Rebranded(isWord, t), k)
  {
    RebrandedIsApply(isWord, t);
    ListIsDisciplined(isWord);
    OutputIsClean(isWord, REPLACEMENTS, t);
    var out := Rebranded(isWord, t);
    TickerEntry(isWord);
    forall i | 0 <= i < TICKER ensures !Contains(out, REPLACEMENTS[i].pat) {
      AllHarmless(i);
      assert !Present(isWord, REPLACEMENTS[i], out);
    }
    assert !Present(isWord, REPLACEMENTS[TICKER], out);
    HasTickerIff(isWord, out);
  }

  /** Rebranding a rebranded text changes nothing. */
  lemma RebrandedTwice(isWord: char -> bool, t: string)
    requires LettersAreWord(isWord)
    ensures Rebranded(isWord, Rebranded(isWord, t)) == Rebranded(isWord, t)
  {
    RebrandedIsApply(isWord, t);
    RebrandedIsApply(isWord, Rebranded(isWord, t));
    ListIsDisciplined(isWord);
    Idempotent(isWord, REPLACEMENTS, t);
  }

  /** A text comes out changed exactly when it holds a search string or a whole-word ticker. */
  lemma ChangedIffBranded(isWord: char -> bool, t: string)
    requires LettersAreWord(isWord)
    ensures Rebranded(isWord, t) != t <==> Branded(isWord, t)
  {
    RebrandedIsApply(isWord, t);
    ListIsDisciplined(isWord);
    TickerEntry(isWord);
    UnchangedIffClean(isWord, REPLACEMENTS, t);
    CleanIffUnbranded(isWord, t);
    HasTickerIff(isWord, t);
  }

  lemma CleanIffUnbranded(isWord: char -> bool, t: string)
    requires LettersAreWord(isWord)
    ensures Clean(isWord, REPLACEMENTS, t)
            <==> (forall i | 0 <= i < TICKER :: !Contains(t, REPLACEMENTS[i].pat)) && !HasWord(isWord, t, "XMR")
  {
    TickerEntry(isWord);
    forall i | 0 <= i < TICKER ensures Present(isWord, REPLACEMENTS[i], t) == Contains(t, REPLACEMENTS[i].pat) {
      AllHarmless(i);
    }
    assert Present(isWord, REPLACEMENTS[TICKER], t) == HasWord(isWord, t, "XMR");
  }

  /** The `v` and `V` of a text only get more, and stay as many only if the text is unchanged. */
  lemma VsOnlyGrow(isWord: char -> bool, t: string)
    requires LettersAreWord(isWord)
    ensures VCount(Rebranded(isWord, t)) >= VCount(t)
    ensures VCount(Rebranded(isWord, t)) == VCount(t) <==> Rebranded(isWord, t) == t
  {
    RebrandedIsApply(isWord, t);
    ListIsDisciplined(isWord);
    VCountGrows(isWord, REPLACEMENTS, t);
  }

  /** `apply_replacements` of the script: nothing to rewrite is left, and the text is the same exactly
      when there was nothing to rewrite. */
  method RebrandText(isWord: char -> bool, original: string) returns (text: string)
    requires LettersAreWord(isWord)
    ensures text == Rebranded(isWord, original)
    ensures forall i | 0 <= i < TICKER :: !Contains(text, REPLACEMENTS[i].pat)
    ensures forall k :: !TickerAt(isWord, text, k)
    ensures text != original <==> Branded(isWord, original)
  {
    ListIsDisciplined(isWord);
    RebrandedIsApply(isWord, original);
    text := ApplyReplacements(isWord, REPLACEMENTS, original);
    NothingIsLeft(isWord, original);
    ChangedIffBranded(isWord, original);
  }
}
