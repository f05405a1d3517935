/**
 The entry for `The Monero Project` replaces the whole phrase, so that no text
 should end up with `The Velkavo Project`. Exactly when one does.
 */
module ProjectPhrase {
  import opened Substitution
  import opened WholeWord
  import opened Chain
  import opened Rules
  import opened Progress
  import opened DaemonName

  const PHRASE: string := "The Velkavo Project"
  const PHRASE_AROUND: string := "The The Monero Project Project"

  // --- What the chain keeps ---

  lemma PhrasesArePhraseLike()
    ensures PhraseLike(PHRASE) && PhraseLike(PHRASE_AROUND) && VFree(PHRASE_AROUND)
  {
    var w := PHRASE;
    assert forall m | 0 < m < 18 :: !Head(w, m);
    AroundIsPhraseLike();
  }

  lemma AroundIsPhraseLike()
    ensures PhraseLike(PHRASE_AROUND) && VFree(PHRASE_AROUND)
  {
    AroundHeads();
    AroundTailHeads();
  }

  lemma AroundHeads()
    ensures forall m | 0 < m < 15 && m != 4 && m != 8 :: !Head(PHRASE_AROUND, m)
    ensures VFree(PHRASE_AROUND)
  {
    var w := PHRASE_AROUND;
    assert forall m | 0 < m < 15 && m != 4 && m != 8 :: !Head(w, m);
  }

  lemma AroundTailHeads()
    ensures forall m | 15 <= m < 29 :: !Head(PHRASE_AROUND, m)
  {
    var w := PHRASE_AROUND;
    assert forall m | 15 <= m < 29 :: !Head(w, m);
  }

  lemma SharesNoStart(rule: Rule, w: string)
    requires rule.pat != "" && w != "" && w[0] !in rule.pat && rule.pat[0] !in w
    ensures Leaves(rule, w)
  {
    var pat := rule.pat;
    forall d | -|w| < d < |pat| ensures Clash(pat, w, d) {
      if d >= 0 {
        assert w[0] != pat[0 + d];
      } else {
        assert w[-d] != pat[-d + d];
      }
    }
    ApartLeaves(rule, w);
  }

  lemma OwnEntryLeaves(w: string)
    requires |w| > 4 && w[0] == 'T' && 'T' !in w[1..] && w[4] != 'M'
    ensures Leaves(Plain("The Monero Project", "Velkavo"), w)
  {
    var pat := "The Monero Project";
    assert 'T' !in pat[1..];
    forall d | -|w| < d < |pat| ensures Clash(pat, w, d) {
      if d > 0 {
        assert w[0] != pat[0 + d] by { assert pat[d] == pat[1..][d - 1]; }
      } else if d == 0 {
        assert w[4] != pat[4 + d];
      } else {
        assert w[-d] != pat[-d + d] by { assert w[-d] == w[1..][-d - 1]; }
      }
    }
    ApartLeaves(Plain(pat, "Velkavo"), w);
  }

  lemma LastEntriesLeave(isWord: char -> bool, m: nat)
    requires LettersAreWord(isWord) && PROJECT <= m <= TICKER
    ensures Leaves(REPLACEMENTS[m], PHRASE)
  {
    TickerEntry(isWord);
    if m == PROJECT {
      OwnEntryLeaves(PHRASE);
    } else {
      GeneralNamesLeave();
    }
  }

  lemma GeneralNamesLeave()
    ensures Leaves(Plain("MONERO", "VELKAVO"), PHRASE) && Leaves(Plain("Monero", "Velkavo"), PHRASE)
    ensures Leaves(Plain("monero", "velkavo"), PHRASE) && Leaves(Ticker("XMR", "VKV"), PHRASE)
  {
    var q := PHRASE;
    assert 'M' !in q && 'm' !in q && 'X' !in q && q[0] == 'T';
    SharesNoStart(Plain("MONERO", "VELKAVO"), q);
    SharesNoStart(Plain("Monero", "Velkavo"), q);
    SharesNoStart(Plain("monero", "velkavo"), q);
    SharesNoStart(Ticker("XMR", "VKV"), q);
  }

  /** The finished phrase is never touched again. */
  lemma PhraseIsKept(isWord: char -> bool, t: string, i: nat)
    requires LettersAreWord(isWord) && PROJECT <= i <= TICKER + 1 && Contains(TextAfter(isWord, t, i), PHRASE)
    ensures Contains(Rebranded(isWord, t), PHRASE)
  {
    forall m | i <= m < TICKER + 1 ensures Leaves(REPLACEMENTS[m], PHRASE) {
      LastEntriesLeave(isWord, m);
    }
    TextKeeps(isWord, t, PHRASE, i, TICKER + 1);
  }

  /** The phrase inside another becomes the finished phrase at its own step. */
  lemma AroundCompletes(x: string)
    requires Contains(x, PHRASE_AROUND)
    ensures Contains(Replace(x, "The Monero Project", "Velkavo"), PHRASE)
  {
    var u, pat, v := "The ", "The Monero Project", " Project";
    PhraseParts();
    var k :| 0 <= k <= |x| && OccursAt(x, PHRASE_AROUND, k);
    OpensOnlyWhole();
    EnclosedAt(x, pat, "Velkavo", u, v, k);
  }

  lemma PhraseParts()
    ensures PHRASE_AROUND == "The " + "The Monero Project" + " Project"
    ensures PHRASE == "The " + "Velkavo" + " Project"
    ensures "The Monero Project" == "The " + "Monero" + " Project"
  {
  }

  lemma OpensOnlyWhole()
    ensures EndsAtFirstMatch("The ", "The Monero Project")
  {
    var pat, w := "The Monero Project", "The The Monero Project";
    assert "The " + pat == w;
    forall k | 0 <= k < 4 ensures !OccursAt(w, pat, k) {
      if k == 0 {
        assert w[4] != pat[4];
      } else {
        assert w[k..][0] != pat[0];
      }
    }
  }

  // --- What the chain brings in ---

  /** No replacement starts as the finished phrase goes on at `m`, judged by one character. */
  predicate PlainIn(q: string, m: nat)
    requires m < |q|
  {
    var a := q[m];
    && a != 'u' && a != 'm' && a != 'M' && a != 'n' && a != 'p' && a != 'V' && a != 'T' && (a == 'h' ==> m == 1)
    && (a == 'v' ==> m == 9) && (a == 'c' ==> m == 17) && (a == 't' ==> m == 18)
  }

  lemma FitsAsSecondWord(j: nat, pat: string, rep: string, p: nat, q: string)
    requires Harmless(j, pat, rep, p) && Tidy(j, pat, rep) && (j >= PROJECT ==> p == 0)
    requires |q| == 19 && q[0] == 'T' && q[1] == 'h' && q[2] == 'e' && q[10] == 'o' && q[18] == 't'
    requires forall m | 0 < m < 19 && m != 4 :: PlainIn(q, m)
    ensures FitsOnlyAt(pat, rep, p, q, 4)
  {
    forall d | -|q| < d < |rep| && d + 4 != 0 ensures Clash(rep, q, d) || (d < 0 && |q| + d <= p) {
      if d >= 0 {
        StartsOutside(j, pat, rep, p, q, d);
      } else {
        MeetsNowhereElse(j, pat, rep, p, q, -d);
      }
    }
  }

  lemma StartsOutside(j: nat, pat: string, rep: string, p: nat, q: string, d: nat)
    requires Harmless(j, pat, rep, p) && Tidy(j, pat, rep) && (j >= PROJECT ==> p == 0)
    requires |q| == 19 && q[0] == 'T' && q[1] == 'h' && d < |rep|
    ensures Clash(rep, q, d)
  {
    assert d < p ==> rep[d] == pat[d] by { assert d < p ==> rep[..p][d] == pat[..p][d]; }
    if rep[d] != 'T' {
      assert q[0] != rep[0 + d];
    } else {
      assert !Head(rep, d);
      assert q[1] != rep[1 + d];
    }
  }

  lemma MeetsNowhereElse(j: nat, pat: string, rep: string, p: nat, q: string, m: nat)
    requires Harmless(j, pat, rep, p) && Tidy(j, pat, rep)
    requires |q| == 19 && 0 < m < 19 && PlainIn(q, m) && q[2] == 'e' && q[10] == 'o' && q[18] == 't'
    ensures Clash(rep, q, 0 - m) || (m == 18 && p > 0)
  {
    assert p > 0 ==> rep[0] == pat[0] by { assert p > 0 ==> rep[..p][0] == pat[..p][0]; }
    assert p > 1 ==> rep[1] == pat[1] by { assert p > 1 ==> rep[..p][1] == pat[..p][1]; }
    if q[m] != rep[0] {
      assert q[m] != rep[m + (0 - m)];
    } else if m < 18 {
      assert q[m + 1] != rep[m + 1 + (0 - m)];
    }
  }

  lemma PhraseShape()
    ensures forall m | 0 < m < 19 && m != 4 :: PlainIn(PHRASE, m)
  {
    var q := PHRASE;
    assert forall m | 0 < m < 19 && m != 4 :: PlainIn(q, m);
  }

  /** What a plain entry needs in the text to complete the phrase. */
  function Around(j: nat): string {
    if j == PROJECT then PHRASE_AROUND else "The Monero Project"
  }

  lemma PlainStepEncloses(j: nat, pat: string, rep: string, p: nat, x: string)
    requires Harmless(j, pat, rep, p) && Tidy(j, pat, rep) && (j >= PROJECT ==> p == 0)
    requires !Contains(x, PHRASE)
    requires rep == "Velkavo" ==> Unreplaced(pat, rep, PHRASE, 4) == Around(j) && !Contains(x, Around(j))
    ensures !Contains(Replace(x, pat, rep), PHRASE)
  {
    PhraseShape();
    var q := PHRASE;
    FitsAsSecondWord(j, pat, rep, p, q);
    if rep != "Velkavo" { NotSecondWord(j, pat, rep, q); }
    NotEnclosed(x, pat, rep, p, q, 4);
  }

  lemma SecondWord(j: nat)
    requires PROJECT <= j < TICKER && REPLACEMENTS[j].rep == "Velkavo"
    ensures Unreplaced(REPLACEMENTS[j].pat, "Velkavo", PHRASE, 4) == Around(j)
  {
    PhraseParts();
    assert PHRASE[..4] == "The " && PHRASE[11..] == " Project";
    if j != PROJECT {
      assert REPLACEMENTS[j].pat == "Monero" by { assert "VELKAVO"[1] != "Velkavo"[1] && "velkavo"[0] != "Velkavo"[0]; }
    }
  }

  lemma NotSecondWord(j: nat, pat: string, rep: string, q: string)
    requires Tidy(j, pat, rep) && rep != "Velkavo"
    requires |q| == 19 && q[4] == 'V' && q[5] == 'e' && q[9] == 'v'
    ensures Clash(rep, q, 0 - 4)
  {
    if rep[0] != 'V' {
      assert q[4] != rep[4 + (0 - 4)];
    } else if rep[1] != 'e' {
      assert q[5] != rep[5 + (0 - 4)];
    } else {
      assert q[9] != rep[9 + (0 - 4)];
    }
  }

  lemma TickerStepEncloses(isWord: char -> bool, x: string)
    requires LettersAreWord(isWord) && TickerLike(isWord, "XMR", "VKV") && !Contains(x, PHRASE)
    ensures !Contains(Sub(isWord, x, "XMR", "VKV"), PHRASE)
  {
    PhraseShape();
    var rep, q, y := "VKV", PHRASE, Sub(isWord, x, "XMR", "VKV");
    forall d | -19 < d < 2 ensures Clash(rep, q, d) {
      if d >= 0 {
        assert q[0] != rep[0 + d];
      } else if d == -4 {
        assert q[5] != rep[5 + d];
      } else {
        assert PlainIn(q, -d) && q[-d] != rep[-d + d];
      }
    }
    assert isWord(q[1]);
    forall m | 0 <= m <= |y| ensures !OccursAt(y, q, m) {
      SubCreatesNoneAt(isWord, x, "XMR", "VKV", 0, q, m);
    }
  }

  /** What an entry needs in the text is not there, unless it was there from the start. */
  lemma AroundIsAway(isWord: char -> bool, t: string, j: nat)
    requires LettersAreWord(isWord) && PROJECT <= j < TICKER && !Contains(t, PHRASE_AROUND)
    ensures !Contains(TextAfter(isWord, t, j), Around(j))
  {
    if j == PROJECT {
      AroundIsPhraseLike();
      VFreeStaysAway(isWord, PHRASE_AROUND, t, j);
    } else {
      ListIsProper();
      ListIsDisciplined(isWord);
      assert REPLACEMENTS[PROJECT].Plain? && REPLACEMENTS[PROJECT].pat == "The Monero Project";
      CleanSoFar(isWord, REPLACEMENTS, t, PROJECT, j);
    }
  }

  lemma NextEncloses(isWord: char -> bool, t: string, j: nat)
    requires LettersAreWord(isWord) && j <= TICKER && !Contains(t, PHRASE_AROUND)
    requires !Contains(TextAfter(isWord, t, j), PHRASE)
    ensures !Contains(TextAfter(isWord, t, j + 1), PHRASE)
  {
    TickerEntry(isWord);
    AfterNext(isWord, t, j);
    var x := TextAfter(isWord, t, j);
    if j == TICKER {
      TickerStepEncloses(isWord, x);
    } else {
      AllHarmless(j);
      AllTidy(j);
      if REPLACEMENTS[j].rep == "Velkavo" {
        SecondWord(j);
        AroundIsAway(isWord, t, j);
      }
      PlainStepEncloses(j, REPLACEMENTS[j].pat, REPLACEMENTS[j].rep, SHIELD[j], x);
    }
  }

  lemma PhraseStaysAway(isWord: char -> bool, t: string)
    requires LettersAreWord(isWord) && !Contains(t, PHRASE_AROUND) && !Contains(t, PHRASE)
    ensures !Contains(Rebranded(isWord, t), PHRASE)
  {
    ListIsProper();
    forall m | 0 <= m <= TICKER ensures Persists(isWord, REPLACEMENTS, PHRASE, t, m) {
      if Away(isWord, PHRASE, t, m) { NextEncloses(isWord, t, m); }
    }
    StaysOut(isWord, REPLACEMENTS, PHRASE, t, TICKER + 1);
  }

  // --- Exactly when ---

  lemma PhraseFromPhrase(isWord: char -> bool, t: string)
    requires LettersAreWord(isWord) && Contains(t, PHRASE)
    ensures Contains(Rebranded(isWord, t), PHRASE)
  {
    PhrasesArePhraseLike();
    PhraseReaches(isWord, t, PHRASE);
    PhraseIsKept(isWord, t, PROJECT);
  }

  lemma PhraseFromAround(isWord: char -> bool, t: string)
    requires LettersAreWord(isWord) && Contains(t, PHRASE_AROUND)
    ensures Contains(Rebranded(isWord, t), PHRASE)
  {
    AroundIsPhraseLike();
    PhraseReaches(isWord, t, PHRASE_AROUND);
    AroundCompletes(TextAfter(isWord, t, PROJECT));
    ProjectNext(isWord, t);
    PhraseIsKept(isWord, t, PROJECT + 1);
  }

  /** The phrase comes out if and only if it went in, finished or wrapped around its own original. */
  lemma ProjectPhraseIff(isWord: char -> bool, t: string)
    requires LettersAreWord(isWord)
    ensures Contains(Rebranded(isWord, t), PHRASE) <==> Contains(t, PHRASE) || Contains(t, PHRASE_AROUND)
  {
    if Contains(t, PHRASE) {
      PhraseFromPhrase(isWord, t);
    } else if Contains(t, PHRASE_AROUND) {
      PhraseFromAround(isWord, t);
    } else {
      PhraseStaysAway(isWord, t);
    }
  }

  lemma LacksChar(t: string, s: string, i: nat)
    requires i < |s| && s[i] !in t
    ensures !Contains(t, s)
  {
    forall k | 0 <= k <= |t| ensures !OccursAt(t, s, k) {
      assert k + i < |t| ==> t[k..][i] == t[k + i];
    }
  }

  /** A text free of the finished phrase that does not stay so. */
  lemma ProjectPhraseExample(isWord: char -> bool)
    requires LettersAreWord(isWord)
    ensures !Contains(PHRASE_AROUND, PHRASE) && Contains(Rebranded(isWord, PHRASE_AROUND), PHRASE)
  {
    var t := PHRASE_AROUND;
    assert 'V' !in t && PHRASE[4] == 'V';
    LacksChar(t, PHRASE, 4);
    ContainsIntro(t, t, 0);
    PhraseFromAround(isWord, t);
  }
}
